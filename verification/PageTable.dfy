/** Four-level page tables in physical memory (section 4.5 of Intel SDM volume 3A, 4-KByte pages):
    the hardware walk, the shape the kernel keeps, and what one entry written means for translation. */
module PageTable {

  type Word = bv64

  const PTE_P: Word := 0x1
  const PTE_W: Word := 0x2
  const PTE_U: Word := 0x4
  const PTE_COW: Word := 0x400
  const PTE_R_MASK: Word := 0xFFFF_FFFF_FFFF_FFFD
  const CLEAR_OFFSET: Word := 0xFFFF_FFFF_FFFF_F000
  const CLEAR_FLAG: Word := 0xFFFF_FFFF_FFFF_F000
  /** The address bits of an entry and of cr3. */
  const ADDRESS: Word := 0x000F_FFFF_FFFF_F000
  const VIR_START: Word := 0xFFFF_FFFF_8000_0000
  /** Physical memory below 32 MB is mapped at VIR_START. */
  const DIRECT_LIMIT: Word := 0x200_0000
  const SELF_INDEX: Word := 510

  datatype Phys = Phys(addr: Word)

  /** The 8-byte words of physical memory by address; a word never written is zero. */
  type Memory = map<Phys, Word>

  function Rd(m: Memory, pa: Word): Word {
    if Phys(pa) in m then m[Phys(pa)] else 0
  }

  function Wr(m: Memory, pa: Word, x: Word): Memory {
    m[Phys(pa) := x]
  }

  predicate Present(e: Word) { e & PTE_P != 0 }

  /** The frame or table an entry points at. */
  function Base(e: Word): Word { e & ADDRESS }

  predicate Aligned(t: Word) { Base(t) == t }

  // get_pml4e_index, get_pdpte_index, get_pdte_index and get_pte_index
  function Pml4Index(va: Word): Word { (va >> 39) & 0x1FF }
  function PdptIndex(va: Word): Word { (va >> 30) & 0x1FF }
  function PdtIndex(va: Word): Word { (va >> 21) & 0x1FF }
  function PtIndex(va: Word): Word { (va >> 12) & 0x1FF }

  /** The index an address has at a level: 4 is the PML4, 1 the page table. */
  function Index(level: nat, va: Word): Word {
    if level == 4 then Pml4Index(va)
    else if level == 3 then PdptIndex(va)
    else if level == 2 then PdtIndex(va)
    else PtIndex(va)
  }

  predicate ValidIndex(i: Word) { i < 512 }

  function WithOffset(base: Word, offset: Word): Word { base | offset }
  function SlotOffset(i: Word): Word { i << 3 }
  function PageOffset(va: Word): Word { va & 0xFFF }

  /** The physical address of slot i of a table. */
  function SlotAddr(t: Word, i: Word): Word { WithOffset(t, SlotOffset(i)) }

  // ----- the walk -----

  datatype Found = None | Some(value: Word)

  /** The table or frame a slot points at. */
  function Below(m: Memory, t: Word, i: Word): Found {
    var e := Rd(m, SlotAddr(t, i));
    if Present(e) then Some(Base(e)) else None
  }

  /** The table the walk of va uses at a level, if every entry above it is present. */
  function TableAt(m: Memory, root: Word, va: Word, level: nat): Found
    requires 1 <= level <= 4
    decreases 4 - level
  {
    if level == 4 then Some(root)
    else
      match TableAt(m, root, va, level + 1)
      case None => None
      case Some(t) => Below(m, t, Index(level + 1, va))
  }

  /** The slot the walk of va reads at a level. */
  function SlotOf(m: Memory, root: Word, va: Word, level: nat): Found
    requires 1 <= level <= 4
  {
    match TableAt(m, root, va, level)
    case None => None
    case Some(t) => Some(SlotAddr(t, Index(level, va)))
  }

  /** The page's leaf entry, zero if a table is missing. */
  function Leaf(m: Memory, root: Word, va: Word): Word {
    match SlotOf(m, root, va, 1)
    case None => 0
    case Some(a) => Rd(m, a)
  }

  /** The physical address the hardware reaches for va with the tables at cr3. */
  function Walk(m: Memory, cr3: Word, va: Word): Found {
    var e := Leaf(m, Base(cr3), va);
    if Present(e) then Some(WithOffset(Base(e), PageOffset(va))) else None
  }

  // ----- bit facts -----

  lemma SlotInjective(t: Word, i: Word, u: Word, j: Word)
    requires Aligned(t) && Aligned(u) && ValidIndex(i) && ValidIndex(j)
    ensures SlotAddr(t, i) == SlotAddr(u, j) <==> t == u && i == j
    ensures Base(SlotAddr(t, i)) == t
  {
  }

  lemma Pml4Bound(va: Word) ensures ValidIndex(Pml4Index(va)) {}
  lemma PdptBound(va: Word) ensures ValidIndex(PdptIndex(va)) {}
  lemma PdtBound(va: Word) ensures ValidIndex(PdtIndex(va)) {}
  lemma PtBound(va: Word) ensures ValidIndex(PtIndex(va)) {}

  lemma IndexBound(level: nat, va: Word)
    ensures ValidIndex(Index(level, va))
  {
    Pml4Bound(va);
    PdptBound(va);
    PdtBound(va);
    PtBound(va);
    hide ValidIndex, Pml4Index, PdptIndex, PdtIndex, PtIndex;
  }

  lemma BaseAligned(e: Word)
    ensures Aligned(Base(e))
  {
  }

  // ----- leaf words and the operations on them -----

  predicate Writable(e: Word) { e & PTE_W != 0 }
  predicate UserBit(e: Word) { e & PTE_U != 0 }
  predicate Cow(e: Word) { e & PTE_COW != 0 }

  /** Fork's two masks change exactly the write and copy-on-write bits. */
  lemma MarkCowWord(e: Word)
    ensures var f := (e & PTE_R_MASK) | PTE_COW;
            Base(f) == Base(e) && Present(f) == Present(e) && UserBit(f) == UserBit(e) && !Writable(f) && Cow(f)
  {
    var f := (e & PTE_R_MASK) | PTE_COW;
    assert f & ADDRESS == e & ADDRESS;
    assert f & PTE_P == e & PTE_P;
    assert f & PTE_U == e & PTE_U;
  }

  /** The handler's re-granted word: same frame, writable, not copy-on-write. */
  lemma RegrantWord(e: Word)
    ensures var f := ((e & CLEAR_FLAG) | (PTE_P | PTE_U | PTE_W)) & !PTE_COW;
            Base(f) == Base(e) && Present(f) && UserBit(f) && Writable(f) && !Cow(f)
  {
  }

  /** A fresh frame or-ed with permission bits: the frame and exactly those bits. */
  lemma FreshWord(frame: Word)
    requires Aligned(frame)
    ensures var f := frame | (PTE_P | PTE_U | PTE_W);
            Base(f) == frame && Present(f) && UserBit(f) && Writable(f) && !Cow(f)
    ensures var f := frame | ((PTE_P | PTE_U | PTE_W) & !PTE_W);
            Base(f) == frame && Present(f) && UserBit(f) && !Writable(f) && !Cow(f)
  {
  }

  // ----- the shape of an address space -----

  /** The tables of an address space with their levels. */
  type Levels = map<Phys, nat>

  /** The level of a table, 0 for a page that is none. */
  function LevelOf(tabs: Levels, t: Word): nat {
    if Phys(t) in tabs then tabs[Phys(t)] else 0
  }

  /** A slot of an upper-level table other than the self-reference. */
  ghost predicate Inner(root: Word, tabs: Levels, t: Word, i: Word) {
    LevelOf(tabs, t) > 1 && ValidIndex(i) && !(t == root && i == SELF_INDEX)
  }

  ghost predicate TablesAligned(root: Word, tabs: Levels) {
    && LevelOf(tabs, root) == 4
    && forall t {:trigger LevelOf(tabs, t)} :: LevelOf(tabs, t) > 0 ==> Aligned(t) && LevelOf(tabs, t) <= 4
  }

  /** Present upper entries lead to tables one level down. */
  ghost predicate Leads(m: Memory, root: Word, tabs: Levels) {
    forall t, i {:trigger Below(m, t, i)} :: Inner(root, tabs, t, i) && Below(m, t, i).Some? ==>
      LevelOf(tabs, Below(m, t, i).value) == LevelOf(tabs, t) - 1
  }

  /** No table hangs from two slots. */
  ghost predicate OneParent(m: Memory, root: Word, tabs: Levels) {
    forall t, i, u, j {:trigger Below(m, t, i), Below(m, u, j)} ::
      (Inner(root, tabs, t, i) && Inner(root, tabs, u, j)
       && Below(m, t, i).Some? && Below(m, t, i) == Below(m, u, j)) ==> t == u && i == j
  }

  /** tabs names the tables of the address space with their levels. */
  ghost predicate Shape(m: Memory, root: Word, tabs: Levels) {
    TablesAligned(root, tabs) && Leads(m, root, tabs) && OneParent(m, root, tabs)
  }

  ghost predicate HasParent(m: Memory, root: Word, tabs: Levels, n: Word) {
    exists t, i {:trigger Below(m, t, i)} :: Inner(root, tabs, t, i) && Below(m, t, i) == Some(n)
  }

  /** Every table below the root hangs from some slot; with OneParent, from exactly one. */
  ghost predicate Rooted(m: Memory, root: Word, tabs: Levels) {
    forall n {:trigger LevelOf(tabs, n)} :: LevelOf(tabs, n) > 0 && n != root ==> HasParent(m, root, tabs, n)
  }

  lemma SameInnerKeepsRooted(m: Memory, m': Memory, root: Word, tabs: Levels)
    requires Rooted(m, root, tabs)
    requires forall u, j {:trigger Below(m', u, j)} :: Inner(root, tabs, u, j) ==> Below(m', u, j) == Below(m, u, j)
    ensures Rooted(m', root, tabs)
  {
    hide Below, ValidIndex, LevelOf, Inner;
    forall n | LevelOf(tabs, n) > 0 && n != root
      ensures HasParent(m', root, tabs, n)
    {
      assert HasParent(m, root, tabs, n);
      var t, i :| Inner(root, tabs, t, i) && Below(m, t, i) == Some(n);
      assert Below(m', t, i) == Some(n);
    }
  }

  /** At boot the root is the only table, and it is zero. */
  lemma ZeroRootIsTree(m: Memory, root: Word)
    requires Aligned(root) && ZeroTable(m, root)
    ensures var tabs := map[Phys(root) := 4]; Shape(m, root, tabs) && Rooted(m, root, tabs)
  {
    var tabs := map[Phys(root) := 4];
    forall t, i | Inner(root, tabs, t, i)
      ensures Below(m, t, i).None?
    {
      assert t == root;
      ZeroIsAbsent(m, root, i);
    }
    hide Below, ZeroTable, Aligned, ValidIndex;
  }

  ghost predicate Outside510(va: Word) {
    Index(4, va) != SELF_INDEX
  }

  lemma TableStep(m: Memory, root: Word, va: Word, level: nat)
    requires 1 <= level < 4
    ensures TableAt(m, root, va, level) ==
              if TableAt(m, root, va, level + 1).Some?
              then Below(m, TableAt(m, root, va, level + 1).value, Index(level + 1, va)) else None
  {
    hide Below, Index;
  }

  lemma {:induction false} WalkStaysInside(m: Memory, root: Word, tabs: Levels, va: Word, level: nat)
    requires Shape(m, root, tabs) && Outside510(va) && 1 <= level <= 4
    ensures TableAt(m, root, va, level).Some? ==> LevelOf(tabs, TableAt(m, root, va, level).value) == level
    decreases 4 - level
  {
    hide OneParent, Below, Index, ValidIndex, Aligned, LevelOf;
    if level < 4 {
      WalkStaysInside(m, root, tabs, va, level + 1);
      IndexBound(level + 1, va);
    }
  }

  /** The addresses agree at every level above the given one. */
  predicate SamePrefix(va: Word, vb: Word, level: nat) {
    && (level < 4 ==> Index(4, va) == Index(4, vb))
    && (level < 3 ==> Index(3, va) == Index(3, vb))
    && (level < 2 ==> Index(2, va) == Index(2, vb))
    && (level < 1 ==> Index(1, va) == Index(1, vb))
  }

  lemma PrefixStep(va: Word, vb: Word, level: nat)
    requires level < 4
    ensures SamePrefix(va, vb, level) <==> SamePrefix(va, vb, level + 1) && Index(level + 1, va) == Index(level + 1, vb)
  {
    hide Pml4Index, PdptIndex, PdtIndex, PtIndex;
    if level == 3 {
    } else if level == 2 {
    } else if level == 1 {
    } else {
    }
  }

  lemma ParentsEqual(m: Memory, root: Word, tabs: Levels, t: Word, i: Word, u: Word, j: Word)
    requires OneParent(m, root, tabs) && Inner(root, tabs, t, i) && Inner(root, tabs, u, j)
    requires Below(m, t, i).Some? && Below(m, t, i) == Below(m, u, j)
    ensures t == u && i == j
  {
  }

  /** Two walks that meet in a table took the same way down. */
  lemma {:induction false} WalksMeet(m: Memory, root: Word, tabs: Levels, va: Word, vb: Word, level: nat)
    requires Shape(m, root, tabs) && Outside510(va) && Outside510(vb) && 1 <= level <= 4
    requires TableAt(m, root, va, level).Some? && TableAt(m, root, va, level) == TableAt(m, root, vb, level)
    ensures SamePrefix(va, vb, level)
    decreases 4 - level
  {
    if level < 4 {
      WalkStaysInside(m, root, tabs, va, level + 1);
      WalkStaysInside(m, root, tabs, vb, level + 1);
      IndexBound(level + 1, va);
      IndexBound(level + 1, vb);
      PrefixStep(va, vb, level);
      hide Index, Below, ValidIndex, Aligned, OneParent, Leads, LevelOf, SamePrefix;
      var t, u := TableAt(m, root, va, level + 1).value, TableAt(m, root, vb, level + 1).value;
      ParentsEqual(m, root, tabs, t, Index(level + 1, va), u, Index(level + 1, vb));
      WalksMeet(m, root, tabs, va, vb, level + 1);
    }
  }

  lemma {:induction false} SamePrefixSameTable(m: Memory, root: Word, va: Word, vb: Word, level: nat)
    requires 1 <= level <= 4 && SamePrefix(va, vb, level)
    ensures TableAt(m, root, va, level) == TableAt(m, root, vb, level)
    decreases 4 - level
  {
    if level < 4 {
      PrefixStep(va, vb, level);
      hide Index, Below, SamePrefix;
      SamePrefixSameTable(m, root, va, vb, level + 1);
    }
  }

  // ----- one word stored -----

  /** A store into a slot changes what that slot points at and no other slot. */
  lemma SlotStore(m: Memory, t: Word, i: Word, x: Word, u: Word, j: Word)
    requires Aligned(t) && Aligned(u) && ValidIndex(i) && ValidIndex(j)
    ensures var m' := Wr(m, SlotAddr(t, i), x);
            && Rd(m', SlotAddr(u, j)) == (if t == u && i == j then x else Rd(m, SlotAddr(u, j)))
            && (t != u || i != j ==> Below(m', u, j) == Below(m, u, j))
  {
    SlotInjective(t, i, u, j);
    hide SlotAddr, Present, Base, ValidIndex, Aligned;
  }

  lemma StoreKeepsBelow(m: Memory, root: Word, tabs: Levels, t: Word, i: Word, x: Word, u: Word, j: Word)
    requires TablesAligned(root, tabs) && 0 < LevelOf(tabs, t) < LevelOf(tabs, u) && ValidIndex(i) && ValidIndex(j)
    ensures Below(Wr(m, SlotAddr(t, i), x), u, j) == Below(m, u, j)
  {
    hide Below, SlotAddr, ValidIndex, Aligned, Rd, Wr, LevelOf;
    SlotStore(m, t, i, x, u, j);
  }

  lemma ShapeAligned(m: Memory, root: Word, tabs: Levels)
    requires Shape(m, root, tabs)
    ensures TablesAligned(root, tabs)
  {
  }

  ghost predicate SameTable(m: Memory, m': Memory, root: Word, vb: Word, level: nat)
    requires 1 <= level <= 4
  {
    TableAt(m', root, vb, level) == TableAt(m, root, vb, level)
  }

  lemma StoreStep(m: Memory, root: Word, tabs: Levels, t: Word, i: Word, x: Word, vb: Word, level: nat)
    requires Shape(m, root, tabs) && Outside510(vb) && 1 <= level < 4
    requires 0 < LevelOf(tabs, t) <= level && ValidIndex(i)
    requires SameTable(m, Wr(m, SlotAddr(t, i), x), root, vb, level + 1)
    ensures SameTable(m, Wr(m, SlotAddr(t, i), x), root, vb, level)
  {
    hide Index, Below, SlotAddr, ValidIndex, LevelOf, Rd, Wr, Outside510, TableAt, Shape;
    ShapeAligned(m, root, tabs);
    WalkStaysInside(m, root, tabs, vb, level + 1);
    IndexBound(level + 1, vb);
    TableStep(m, root, vb, level);
    TableStep(Wr(m, SlotAddr(t, i), x), root, vb, level);
    if TableAt(m, root, vb, level + 1).Some? {
      StoreKeepsBelow(m, root, tabs, t, i, x, TableAt(m, root, vb, level + 1).value, Index(level + 1, vb));
    }
  }

  /** Storing into a table leaves the walk unchanged down to that table's level. */
  lemma {:induction false} StoreKeepsUpper(m: Memory, root: Word, tabs: Levels, t: Word, i: Word, x: Word, vb: Word,
                                           level: nat)
    requires Shape(m, root, tabs) && Outside510(vb) && 1 <= level <= 4
    requires 0 < LevelOf(tabs, t) <= level && ValidIndex(i)
    ensures SameTable(m, Wr(m, SlotAddr(t, i), x), root, vb, level)
    decreases 4 - level
  {
    if level < 4 {
      hide *;
      StoreKeepsUpper(m, root, tabs, t, i, x, vb, level + 1);
      StoreStep(m, root, tabs, t, i, x, vb, level);
    }
  }

  lemma SameInnerKeepsShape(m: Memory, m': Memory, root: Word, tabs: Levels)
    requires Shape(m, root, tabs)
    requires forall u, j {:trigger Below(m', u, j)} :: Inner(root, tabs, u, j) ==> Below(m', u, j) == Below(m, u, j)
    ensures Shape(m', root, tabs)
  {
    hide Below, ValidIndex, Aligned, LevelOf, Inner;
  }

  /** Overwriting a leaf keeps the shape. */
  lemma LeafStoreKeepsShape(m: Memory, root: Word, tabs: Levels, t: Word, i: Word, x: Word)
    requires Shape(m, root, tabs) && LevelOf(tabs, t) == 1 && ValidIndex(i)
    ensures Shape(Wr(m, SlotAddr(t, i), x), root, tabs)
  {
    var m' := Wr(m, SlotAddr(t, i), x);
    hide Below, ValidIndex, Aligned, LevelOf, OneParent, Leads, Rd, Wr, SlotAddr;
    forall u, j | Inner(root, tabs, u, j)
      ensures Below(m', u, j) == Below(m, u, j)
    {
      SlotStore(m, t, i, x, u, j);
    }
    SameInnerKeepsShape(m, m', root, tabs);
  }

  lemma LeafStoreKeepsRooted(m: Memory, root: Word, tabs: Levels, t: Word, i: Word, x: Word)
    requires Shape(m, root, tabs) && Rooted(m, root, tabs) && LevelOf(tabs, t) == 1 && ValidIndex(i)
    ensures Rooted(Wr(m, SlotAddr(t, i), x), root, tabs)
  {
    var m' := Wr(m, SlotAddr(t, i), x);
    hide Below, ValidIndex, Aligned, LevelOf, OneParent, Leads, Rd, Wr, SlotAddr, Rooted;
    forall u, j | Inner(root, tabs, u, j)
      ensures Below(m', u, j) == Below(m, u, j)
    {
      SlotStore(m, t, i, x, u, j);
    }
    SameInnerKeepsRooted(m, m', root, tabs);
  }

  /** Writing the leaf slot of va sets the translation of that page and of no other. */
  lemma LeafStoreRefines(m: Memory, root: Word, tabs: Levels, va: Word, x: Word, vb: Word)
    requires Shape(m, root, tabs) && Outside510(va) && Outside510(vb) && SlotOf(m, root, va, 1).Some?
    ensures Leaf(Wr(m, SlotOf(m, root, va, 1).value, x), root, vb) ==
            if SamePrefix(va, vb, 0) then x else Leaf(m, root, vb)
  {
    var t, i := TableAt(m, root, va, 1).value, Index(1, va);
    WalkStaysInside(m, root, tabs, va, 1);
    WalkStaysInside(m, root, tabs, vb, 1);
    IndexBound(1, va);
    IndexBound(1, vb);
    StoreKeepsUpper(m, root, tabs, t, i, x, vb, 1);
    PrefixStep(va, vb, 0);
    if SamePrefix(va, vb, 1) {
      SamePrefixSameTable(m, root, va, vb, 1);
    }
    if TableAt(m, root, vb, 1).Some? {
      SlotStore(m, t, i, x, TableAt(m, root, vb, 1).value, Index(1, vb));
      if t == TableAt(m, root, vb, 1).value {
        WalksMeet(m, root, tabs, va, vb, 1);
      }
    }
    hide Index, Below, SlotAddr, ValidIndex, Aligned, OneParent, Leads, LevelOf, Rd, Wr, TableAt, SamePrefix;
  }

  // ----- a table added -----

  /** Every entry of the page is zero. */
  ghost predicate ZeroTable(m: Memory, t: Word) {
    forall j {:trigger SlotAddr(t, j)} :: ValidIndex(j) ==> Rd(m, SlotAddr(t, j)) == 0
  }

  /** A zero page outside the address space, ready to become the table below slot i of t. */
  ghost predicate CanHang(m: Memory, root: Word, tabs: Levels, t: Word, i: Word, e: Word) {
    && Inner(root, tabs, t, i) && Below(m, t, i).None?
    && Present(e) && LevelOf(tabs, Base(e)) == 0 && ZeroTable(m, Base(e))
  }

  function Hang(tabs: Levels, t: Word, n: Word): Levels
    requires LevelOf(tabs, t) > 0
  {
    tabs[Phys(n) := LevelOf(tabs, t) - 1]
  }

  lemma ZeroIsAbsent(m: Memory, n: Word, j: Word)
    requires ZeroTable(m, n) && ValidIndex(j)
    ensures Rd(m, SlotAddr(n, j)) == 0 && Below(m, n, j).None?
  {
    assert SlotAddr(n, j) == SlotAddr(n, j);
  }

  lemma HangLevels(tabs: Levels, t: Word, n: Word, u: Word)
    requires LevelOf(tabs, t) > 0
    ensures LevelOf(Hang(tabs, t, n), u) == if u == n then LevelOf(tabs, t) - 1 else LevelOf(tabs, u)
  {
  }

  lemma HungSlot(m: Memory, t: Word, i: Word, e: Word)
    requires Present(e)
    ensures Below(Wr(m, SlotAddr(t, i), e), t, i) == Some(Base(e))
  {
    hide Present, Base, SlotAddr;
  }

  /** What every slot of the larger address space points at. */
  lemma HangBelow(m: Memory, root: Word, tabs: Levels, t: Word, i: Word, e: Word, u: Word, j: Word)
    requires Shape(m, root, tabs) && CanHang(m, root, tabs, t, i, e)
    requires Inner(root, Hang(tabs, t, Base(e)), u, j)
    ensures var m' := Wr(m, SlotAddr(t, i), e);
            && Below(m', u, j) ==
               (if u == t && i == j then Some(Base(e)) else if u == Base(e) then None else Below(m, u, j))
            && (u != Base(e) ==> Inner(root, tabs, u, j))
  {
    HungSlot(m, t, i, e);
    HangLevels(tabs, t, Base(e), u);
    BaseAligned(e);
    if u == Base(e) {
      ZeroIsAbsent(m, u, j);
    }
    hide Present, Base, SlotAddr, ValidIndex, Aligned, OneParent, Leads, LevelOf, Hang, Rd, Wr, Below, ZeroTable;
    SlotStore(m, t, i, e, u, j);
  }

  lemma HangKeepsShape(m: Memory, root: Word, tabs: Levels, t: Word, i: Word, e: Word)
    requires Shape(m, root, tabs) && CanHang(m, root, tabs, t, i, e)
    ensures Shape(Wr(m, SlotAddr(t, i), e), root, Hang(tabs, t, Base(e)))
  {
    var m', tabs' := Wr(m, SlotAddr(t, i), e), Hang(tabs, t, Base(e));
    HangKeepsAligned(root, tabs, t, e);
    HangKeepsLeads(m, root, tabs, t, i, e);
    hide Present, Base, SlotAddr, ValidIndex, Aligned, Leads, LevelOf, Hang, Rd, Wr, Below, ZeroTable, TablesAligned,
      Inner;
    forall u, j, v, k | Inner(root, tabs', u, j) && Inner(root, tabs', v, k)
                        && Below(m', u, j).Some? && Below(m', u, j) == Below(m', v, k)
      ensures u == v && j == k
    {
      HangBelow(m, root, tabs, t, i, e, u, j);
      HangBelow(m, root, tabs, t, i, e, v, k);
      OldNotNew(m, root, tabs, e, u, j);
      OldNotNew(m, root, tabs, e, v, k);
    }
  }

  /** The new table hangs from its slot, and the others from theirs. */
  lemma HangKeepsRooted(m: Memory, root: Word, tabs: Levels, t: Word, i: Word, e: Word)
    requires Shape(m, root, tabs) && Rooted(m, root, tabs) && CanHang(m, root, tabs, t, i, e)
    ensures LevelOf(tabs, t) > 0 && Rooted(Wr(m, SlotAddr(t, i), e), root, Hang(tabs, t, Base(e)))
  {
    var m', tabs' := Wr(m, SlotAddr(t, i), e), Hang(tabs, t, Base(e));
    HungSlot(m, t, i, e);
    InnerAfterHang(root, tabs, t, e, t, i);
    ShapeIsAligned(m, root, tabs);
    hide Present, Base, SlotAddr, ValidIndex, Aligned, Hang, Rd, Wr, Below, ZeroTable, Inner, Shape, LevelOf;
    forall n | LevelOf(tabs', n) > 0 && n != root
      ensures HasParent(m', root, tabs', n)
    {
      HangLevels(tabs, t, Base(e), n);
      if n == Base(e) {
        assert Below(m', t, i) == Some(n);
      } else {
        var u, j := ParentKept(m, root, tabs, t, i, e, n);
        assert Below(m', u, j) == Some(n);
      }
    }
  }

  lemma ShapeIsAligned(m: Memory, root: Word, tabs: Levels)
    requires Shape(m, root, tabs)
    ensures TablesAligned(root, tabs)
  {
  }

  lemma InnerAfterHang(root: Word, tabs: Levels, t: Word, e: Word, u: Word, j: Word)
    requires LevelOf(tabs, t) > 0 && LevelOf(tabs, Base(e)) == 0 && Inner(root, tabs, u, j)
    ensures Inner(root, Hang(tabs, t, Base(e)), u, j)
  {
    HangLevels(tabs, t, Base(e), u);
    hide Hang, LevelOf, Base, ValidIndex;
  }

  /** An old table keeps its parent slot when another one is hung. */
  lemma ParentKept(m: Memory, root: Word, tabs: Levels, t: Word, i: Word, e: Word, n: Word) returns (u: Word, j: Word)
    requires TablesAligned(root, tabs) && Rooted(m, root, tabs) && CanHang(m, root, tabs, t, i, e)
    requires LevelOf(tabs, n) > 0 && n != root
    ensures LevelOf(tabs, t) > 0 && Inner(root, Hang(tabs, t, Base(e)), u, j)
    ensures Below(Wr(m, SlotAddr(t, i), e), u, j) == Some(n)
  {
    assert HasParent(m, root, tabs, n);
    u, j :| Inner(root, tabs, u, j) && Below(m, u, j) == Some(n);
    InnerAfterHang(root, tabs, t, e, u, j);
    hide Present, Base, SlotAddr, Hang, Rd, Wr, Below, ZeroTable, Rooted, HasParent, Aligned, ValidIndex, LevelOf;
    SlotStore(m, t, i, e, u, j);
  }

  /** No old slot points at the new table. */
  lemma OldNotNew(m: Memory, root: Word, tabs: Levels, e: Word, u: Word, j: Word)
    requires Shape(m, root, tabs) && LevelOf(tabs, Base(e)) == 0
    ensures Inner(root, tabs, u, j) && Below(m, u, j).Some? ==> Below(m, u, j).value != Base(e)
  {
    hide Present, Base, SlotAddr, ValidIndex, Aligned, LevelOf, Below, TablesAligned;
  }

  lemma HangKeepsAligned(root: Word, tabs: Levels, t: Word, e: Word)
    requires TablesAligned(root, tabs) && LevelOf(tabs, t) > 1 && LevelOf(tabs, Base(e)) == 0
    ensures TablesAligned(root, Hang(tabs, t, Base(e)))
  {
    BaseAligned(e);
    hide Base, Aligned, LevelOf, Hang;
    forall u
      ensures LevelOf(Hang(tabs, t, Base(e)), u) == if u == Base(e) then LevelOf(tabs, t) - 1 else LevelOf(tabs, u)
    {
      HangLevels(tabs, t, Base(e), u);
    }
  }

  lemma HangKeepsLeads(m: Memory, root: Word, tabs: Levels, t: Word, i: Word, e: Word)
    requires Shape(m, root, tabs) && CanHang(m, root, tabs, t, i, e)
    ensures Leads(Wr(m, SlotAddr(t, i), e), root, Hang(tabs, t, Base(e)))
  {
    var m', tabs' := Wr(m, SlotAddr(t, i), e), Hang(tabs, t, Base(e));
    hide Present, Base, SlotAddr, ValidIndex, Aligned, OneParent, LevelOf, Hang, Rd, Wr, Below, ZeroTable,
      TablesAligned;
    forall u, j | Inner(root, tabs', u, j) && Below(m', u, j).Some?
      ensures LevelOf(tabs', Below(m', u, j).value) == LevelOf(tabs', u) - 1
    {
      HangBelow(m, root, tabs, t, i, e, u, j);
      HangLevels(tabs, t, Base(e), u);
      HangLevels(tabs, t, Base(e), Below(m', u, j).value);
      OldNotNew(m, root, tabs, e, u, j);
    }
  }

  /** The walk of vb finds at a level what it found before the table was hung, or the empty table. */
  ghost predicate SameOrNew(m: Memory, m': Memory, root: Word, n: Word, vb: Word, level: nat)
    requires 1 <= level <= 4
  {
    var was, now := TableAt(m, root, vb, level), TableAt(m', root, vb, level);
    now == was || (was.None? && now == Some(n))
  }

  lemma HangStep(m: Memory, root: Word, tabs: Levels, t: Word, i: Word, e: Word, vb: Word, level: nat)
    requires Shape(m, root, tabs) && CanHang(m, root, tabs, t, i, e) && Outside510(vb) && 1 <= level < 4
    requires SameOrNew(m, Wr(m, SlotAddr(t, i), e), root, Base(e), vb, level + 1)
    requires var u := TableAt(Wr(m, SlotAddr(t, i), e), root, vb, level + 1);
             u.Some? ==> LevelOf(tabs, t) > 0 && Inner(root, Hang(tabs, t, Base(e)), u.value, Index(level + 1, vb))
    ensures SameOrNew(m, Wr(m, SlotAddr(t, i), e), root, Base(e), vb, level)
  {
    var m' := Wr(m, SlotAddr(t, i), e);
    TableStep(m, root, vb, level);
    TableStep(m', root, vb, level);
    var above := TableAt(m', root, vb, level + 1);
    if above.Some? {
      HangBelow(m, root, tabs, t, i, e, above.value, Index(level + 1, vb));
      HangFresh(m, root, tabs, t, i, e);
    }
    hide Index, Below, SlotAddr, Inner, Shape, Base, LevelOf, Hang, Rd, Wr, Outside510, TableAt, CanHang;
  }

  lemma HangFresh(m: Memory, root: Word, tabs: Levels, t: Word, i: Word, e: Word)
    requires CanHang(m, root, tabs, t, i, e)
    ensures LevelOf(tabs, t) > 1 && t != Base(e) && Below(m, t, i).None?
  {
    hide Index, Below, SlotAddr, Base, LevelOf;
  }

  /** Below the new table's slot every walk finds what it found before, or an empty table. */
  lemma {:induction false} HangTables(m: Memory, root: Word, tabs: Levels, t: Word, i: Word, e: Word, vb: Word,
                                      level: nat)
    requires Shape(m, root, tabs) && CanHang(m, root, tabs, t, i, e) && Outside510(vb) && 1 <= level <= 4
    ensures SameOrNew(m, Wr(m, SlotAddr(t, i), e), root, Base(e), vb, level)
    decreases 4 - level
  {
    if level < 4 {
      hide *;
      HangFresh(m, root, tabs, t, i, e);
      HangTables(m, root, tabs, t, i, e, vb, level + 1);
      HangKeepsShape(m, root, tabs, t, i, e);
      var m', tabs' := Wr(m, SlotAddr(t, i), e), Hang(tabs, t, Base(e));
      if TableAt(m', root, vb, level + 1).Some? {
        InnerOnWalk(m', root, tabs', vb, level + 1);
      }
      HangStep(m, root, tabs, t, i, e, vb, level);
    }
  }

  lemma InnerOnWalk(m: Memory, root: Word, tabs: Levels, va: Word, level: nat)
    requires Shape(m, root, tabs) && Outside510(va) && 2 <= level <= 4 && TableAt(m, root, va, level).Some?
    ensures Inner(root, tabs, TableAt(m, root, va, level).value, Index(level, va))
  {
    WalkStaysInside(m, root, tabs, va, level);
    IndexBound(level, va);
    hide Below, Index, ValidIndex, Aligned, LevelOf, OneParent, Leads, TableAt;
  }

  /** Adding an empty table, at any of the three levels, changes no translation. */
  lemma HangKeepsLeaves(m: Memory, root: Word, tabs: Levels, t: Word, i: Word, e: Word, vb: Word)
    requires Shape(m, root, tabs) && CanHang(m, root, tabs, t, i, e) && Outside510(vb)
    ensures Leaf(Wr(m, SlotAddr(t, i), e), root, vb) == Leaf(m, root, vb)
  {
    var m' := Wr(m, SlotAddr(t, i), e);
    HangTables(m, root, tabs, t, i, e, vb, 1);
    HangKeepsShape(m, root, tabs, t, i, e);
    WalkStaysInside(m, root, tabs, vb, 1);
    IndexBound(1, vb);
    BaseAligned(e);
    var r := TableAt(m', root, vb, 1);
    if r.Some? {
      if r == TableAt(m, root, vb, 1) {
        SlotStore(m, t, i, e, r.value, Index(1, vb));
      } else {
        ZeroIsAbsent(m, Base(e), Index(1, vb));
        SlotStore(m, t, i, e, Base(e), Index(1, vb));
      }
    }
    hide Present, Base, SlotAddr, ValidIndex, Aligned, OneParent, LevelOf, Rd, Wr, Below, ZeroTable, Leads, Index,
      TableAt;
  }
}
