/** map_virmem_to_phymem: the direct walk that builds missing tables on the way, proved to change
    the translation of one page and nothing else. */
module AddressSpace {
  import opened PageTable
  import opened AccessRights
  import opened RecursiveWindow

  // ----- memory facts -----

  /** kmalloc clears the page it hands out. */
  function Zeroed(m: Memory, t: Word): Memory {
    map a | a in m && Base(a.addr) != t :: m[a]
  }

  lemma ZeroedReads(m: Memory, t: Word, u: Word, j: Word)
    requires Aligned(u) && ValidIndex(j)
    ensures Rd(Zeroed(m, t), SlotAddr(u, j)) == if u == t then 0 else Rd(m, SlotAddr(u, j))
    ensures u != t ==> Below(Zeroed(m, t), u, j) == Below(m, u, j)
  {
    SlotInjective(u, j, u, j);
    hide Base, SlotAddr, Present;
  }

  lemma ZeroedIsZero(m: Memory, t: Word)
    requires Aligned(t)
    ensures ZeroTable(Zeroed(m, t), t)
  {
    hide Base, SlotAddr, Aligned, Rd, ValidIndex, Zeroed;
    forall j | ValidIndex(j)
      ensures Rd(Zeroed(m, t), SlotAddr(t, j)) == 0
    {
      ZeroedReads(m, t, t, j);
    }
  }

  /** A slot of the address space other than the self-reference. */
  ghost predicate Ordinary(root: Word, tabs: Levels, u: Word, j: Word) {
    LevelOf(tabs, u) > 0 && ValidIndex(j) && !(u == root && j == SELF_INDEX)
  }

  /** The two memories agree on every slot of every table, the self-reference apart. */
  ghost predicate AgreeOnTables(m: Memory, m': Memory, root: Word, tabs: Levels) {
    forall u, j {:trigger Below(m', u, j)} {:trigger Rd(m', SlotAddr(u, j))} :: Ordinary(root, tabs, u, j) ==>
      Rd(m', SlotAddr(u, j)) == Rd(m, SlotAddr(u, j)) && Below(m', u, j) == Below(m, u, j)
  }

  lemma ZeroedAgrees(m: Memory, root: Word, tabs: Levels, t: Word)
    requires TablesAligned(root, tabs) && LevelOf(tabs, t) == 0
    ensures AgreeOnTables(m, Zeroed(m, t), root, tabs)
  {
    hide Base, SlotAddr, Aligned, Rd, ValidIndex, Zeroed, Below, LevelOf;
    forall u, j | Ordinary(root, tabs, u, j)
      ensures Rd(Zeroed(m, t), SlotAddr(u, j)) == Rd(m, SlotAddr(u, j)) && Below(Zeroed(m, t), u, j) == Below(m, u, j)
    {
      ZeroedReads(m, t, u, j);
    }
  }

  lemma AgreeKeepsShape(m: Memory, m': Memory, root: Word, tabs: Levels)
    requires Shape(m, root, tabs) && AgreeOnTables(m, m', root, tabs)
    ensures Shape(m', root, tabs)
  {
    hide Base, SlotAddr, Aligned, Rd, ValidIndex, Below, LevelOf, Shape;
    SameInnerKeepsShape(m, m', root, tabs);
  }

  lemma AgreeKeepsRooted(m: Memory, m': Memory, root: Word, tabs: Levels)
    requires Rooted(m, root, tabs) && AgreeOnTables(m, m', root, tabs)
    ensures Rooted(m', root, tabs)
  {
    hide Base, SlotAddr, Aligned, Rd, ValidIndex, Below, LevelOf, Rooted;
    SameInnerKeepsRooted(m, m', root, tabs);
  }

  lemma {:induction false} AgreeKeepsTables(m: Memory, m': Memory, root: Word, tabs: Levels, vb: Word, level: nat)
    requires Shape(m, root, tabs) && AgreeOnTables(m, m', root, tabs) && Outside510(vb) && 1 <= level <= 4
    ensures SameTable(m, m', root, vb, level)
    decreases 4 - level
  {
    if level < 4 {
      AgreeKeepsTables(m, m', root, tabs, vb, level + 1);
      AgreeStep(m, m', root, tabs, vb, level);
      hide *;
    }
  }

  lemma AgreeStep(m: Memory, m': Memory, root: Word, tabs: Levels, vb: Word, level: nat)
    requires Shape(m, root, tabs) && AgreeOnTables(m, m', root, tabs) && Outside510(vb) && 1 <= level < 4
    requires SameTable(m, m', root, vb, level + 1)
    ensures SameTable(m, m', root, vb, level)
  {
    if TableAt(m, root, vb, level + 1).Some? {
      WalkSlotOrdinary(m, root, tabs, vb, level + 1);
    }
    TableStep(m, root, vb, level);
    TableStep(m', root, vb, level);
    hide Index, Below, SlotAddr, Ordinary, Rd, Outside510, TableAt, Shape;
  }

  /** No walk from outside slot 510 reads the self-reference. */
  lemma WalkSlotOrdinary(m: Memory, root: Word, tabs: Levels, vb: Word, level: nat)
    requires Shape(m, root, tabs) && Outside510(vb) && 1 <= level <= 4 && TableAt(m, root, vb, level).Some?
    ensures Ordinary(root, tabs, TableAt(m, root, vb, level).value, Index(level, vb))
  {
    WalkStaysInside(m, root, tabs, vb, level);
    IndexBound(level, vb);
    ShapeAligned(m, root, tabs);
    hide Index, Below, ValidIndex, LevelOf, TableAt, Shape, Aligned;
  }

  lemma AgreeKeepsLeaf(m: Memory, m': Memory, root: Word, tabs: Levels, vb: Word)
    requires Shape(m, root, tabs) && AgreeOnTables(m, m', root, tabs) && Outside510(vb)
    ensures Leaf(m', root, vb) == Leaf(m, root, vb)
  {
    AgreeKeepsTables(m, m', root, tabs, vb, 1);
    if TableAt(m, root, vb, 1).Some? {
      WalkSlotOrdinary(m, root, tabs, vb, 1);
    }
    hide Index, Below, SlotAddr, Ordinary, Rd, Outside510, TableAt, Shape;
  }

  lemma AgreeOpenAt(m: Memory, m': Memory, root: Word, tabs: Levels, vb: Word, level: nat)
    requires Shape(m, root, tabs) && AgreeOnTables(m, m', root, tabs) && UserAddr(vb) && 2 <= level <= 4
    requires OpenAt(m, root, vb, level)
    ensures OpenAt(m', root, vb, level)
  {
    UserIsOutside(vb);
    AgreeKeepsTables(m, m', root, tabs, vb, level);
    SlotIs(m, root, vb, level);
    SlotIs(m', root, vb, level);
    if TableAt(m, root, vb, level).Some? {
      WalkSlotOrdinary(m, root, tabs, vb, level);
    }
    hide UserAddr, Outside510, Shape, TableAt, Index, SlotAddr, Rd, Present, UserBit, Writable, SlotOf, Ordinary, Below;
  }

  /** What touches no table of the address space takes no rights away in it. */
  lemma AgreeKeepsOpen(m: Memory, m': Memory, root: Word, tabs: Levels)
    requires Shape(m, root, tabs) && AgreeOnTables(m, m', root, tabs) && Open(m, root)
    ensures Open(m', root)
  {
    hide UserAddr, Shape, AgreeOnTables, OpenAt;
    forall vb, level: nat | UserAddr(vb) && 2 <= level <= 4
      ensures OpenAt(m', root, vb, level)
    {
      assert OpenAt(m, root, vb, level);
      AgreeOpenAt(m, m', root, tabs, vb, level);
    }
  }

  // ----- words and pointers -----

  /** The table pointer the code computes for an entry, brought back through the direct map, is the
      table the hardware would use, provided the entry points below 32 MB. */
  lemma DirectPointer(e: Word)
    requires e < DIRECT_LIMIT
    ensures ((VIR_START | e) & CLEAR_OFFSET) - VIR_START == Base(e)
  {
  }

  function TableEntry(t: Word, userMap: bool): Word {
    (if userMap then t | PTE_U else t) | (PTE_P | PTE_W)
  }

  lemma TableEntryFacts(t: Word, userMap: bool)
    requires Aligned(t) && t < DIRECT_LIMIT
    ensures Present(TableEntry(t, userMap)) && Base(TableEntry(t, userMap)) == t
            && TableEntry(t, userMap) < DIRECT_LIMIT
    ensures Writable(TableEntry(t, userMap)) && (UserBit(TableEntry(t, userMap)) <==> userMap)
  {
  }

  lemma EntryStored(m: Memory, n: Word, t: Word, i: Word, userMap: bool)
    ensures Aligned(n) && n < DIRECT_LIMIT ==>
              var e := Rd(Wr(m, SlotAddr(t, i), TableEntry(n, userMap)), SlotAddr(t, i));
              Base(e) == n && Present(e) && Writable(e) && (UserBit(e) <==> userMap)
  {
    if Aligned(n) && n < DIRECT_LIMIT {
      TableEntryFacts(n, userMap);
    }
    hide TableEntry, SlotAddr, Base, Present, Writable, UserBit, Aligned;
  }

  /** The leaf word map_virmem_to_phymem stores. */
  function LeafWord(phys: Word, setFlags: bool, userMap: bool): Word {
    if !setFlags then phys
    else if userMap then (phys | (PTE_P | PTE_W)) | PTE_U
    else phys | (PTE_P | PTE_W)
  }

  /** Without flags the word given is stored bit for bit, as fork needs for its marked one; with flags the
      word has the frame given, P and W, no copy-on-write bit, and U exactly for user maps. */
  lemma LeafWordBits(phys: Word, userMap: bool)
    ensures LeafWord(phys, false, userMap) == phys
    ensures Aligned(phys) ==>
              var e := LeafWord(phys, true, userMap);
              && Base(e) == phys && Present(e) && Writable(e) && !Cow(e) && (UserBit(e) <==> userMap)
  {
  }

  // ----- what one step of the walk keeps -----

  ghost predicate SameLeaves(m: Memory, m': Memory, root: Word) {
    forall vb {:trigger Leaf(m', root, vb)} :: Outside510(vb) ==> Leaf(m', root, vb) == Leaf(m, root, vb)
  }

  /** Pages kmalloc will hand out: distinct, aligned, inside the direct map, and no tables yet. */
  ghost predicate PoolOk(pool: seq<Word>, tabs: Levels) {
    && (forall k {:trigger pool[k]} :: 0 <= k < |pool| ==>
          Aligned(pool[k]) && pool[k] < DIRECT_LIMIT && LevelOf(tabs, pool[k]) == 0)
    && (forall k, l :: 0 <= k < l < |pool| ==> pool[k] != pool[l])
  }

  /** The present entries above va's leaf point below 32 MB, as kmalloc's tables do. */
  ghost predicate DirectEntry(m: Memory, root: Word, va: Word, level: nat)
    requires 1 <= level <= 4
  {
    SlotOf(m, root, va, level).Some? && Present(Rd(m, SlotOf(m, root, va, level).value)) ==>
      Rd(m, SlotOf(m, root, va, level).value) < DIRECT_LIMIT
  }

  /** The new table sits in va's path and the rest of the path below it is empty. */
  lemma HungPath(m: Memory, root: Word, tabs: Levels, va: Word, e: Word, level: nat)
    requires Shape(m, root, tabs) && Outside510(va) && 2 <= level <= 4 && TableAt(m, root, va, level).Some?
    requires CanHang(m, root, tabs, TableAt(m, root, va, level).value, Index(level, va), e)
    ensures var m' := Wr(m, SlotAddr(TableAt(m, root, va, level).value, Index(level, va)), e);
            && TableAt(m', root, va, level - 1) == Some(Base(e))
            && (level > 2 ==> TableAt(m', root, va, level - 2) == None)
            && (forall k {:trigger TableAt(m', root, va, k)} :: level <= k <= 4 ==>
                  TableAt(m', root, va, k) == TableAt(m, root, va, k))
  {
    var t, i := TableAt(m, root, va, level).value, Index(level, va);
    var m' := Wr(m, SlotAddr(t, i), e);
    WalkStaysInside(m, root, tabs, va, level);
    IndexBound(level, va);
    forall k | level <= k <= 4
      ensures TableAt(m', root, va, k) == TableAt(m, root, va, k)
    {
      StoreKeepsUpper(m, root, tabs, t, i, e, va, k);
    }
    HungSlotFacts(m, root, tabs, t, i, e);
    TableStep(m', root, va, level - 1);
    if level > 2 {
      TableStep(m', root, va, level - 2);
      IndexBound(level - 1, va);
      HungTableEmpty(m, root, tabs, t, i, e, Index(level - 1, va));
    }
    hide Index, Below, SlotAddr, ValidIndex, LevelOf, Rd, Wr, Outside510, TableAt, Shape, CanHang;
  }

  lemma HungSlotFacts(m: Memory, root: Word, tabs: Levels, t: Word, i: Word, e: Word)
    requires CanHang(m, root, tabs, t, i, e)
    ensures Below(Wr(m, SlotAddr(t, i), e), t, i) == Some(Base(e))
  {
    HungSlot(m, t, i, e);
    hide Below, SlotAddr, Present, Base, Wr;
  }

  lemma HungTableEmpty(m: Memory, root: Word, tabs: Levels, t: Word, i: Word, e: Word, j: Word)
    requires Shape(m, root, tabs) && CanHang(m, root, tabs, t, i, e) && ValidIndex(j)
    ensures Below(Wr(m, SlotAddr(t, i), e), Base(e), j) == None
  {
    ShapeAligned(m, root, tabs);
    HangFresh(m, root, tabs, t, i, e);
    BaseAligned(e);
    ZeroIsAbsent(m, Base(e), j);
    hide Below, SlotAddr, Present, Base, Wr, ValidIndex, Aligned, LevelOf, Rd, ZeroTable, Shape;
    SlotStore(m, t, i, e, Base(e), j);
  }

  // ----- the bookkeeping of one missing table -----

  /** Everything a caller relies on while the walk of va goes down and tables are added. */
  ghost predicate Step(m: Memory, m': Memory, root: Word, tabs: Levels, tabs': Levels) {
    && Shape(m', root, tabs') && SameLeaves(m, m', root) && Grows(tabs, tabs') && SameElsewhere(m, m', tabs')
    && (Rooted(m, root, tabs) ==> Rooted(m', root, tabs'))
  }

  lemma StepTrans(m0: Memory, m1: Memory, m2: Memory, root: Word, tabs0: Levels, tabs1: Levels, tabs2: Levels)
    requires Step(m0, m1, root, tabs0, tabs1) && Step(m1, m2, root, tabs1, tabs2)
    ensures Step(m0, m2, root, tabs0, tabs2)
  {
    hide Shape, LevelOf, Base, Rd, Leaf, Outside510, Rooted;
    forall vb | Outside510(vb)
      ensures Leaf(m2, root, vb) == Leaf(m0, root, vb)
    {
      assert Leaf(m1, root, vb) == Leaf(m0, root, vb);
    }
    forall u | LevelOf(tabs0, u) > 0
      ensures LevelOf(tabs2, u) == LevelOf(tabs0, u)
    {
      assert LevelOf(tabs1, u) == LevelOf(tabs0, u);
    }
    forall a | LevelOf(tabs2, Base(a)) == 0
      ensures Rd(m2, a) == Rd(m0, a)
    {
      assert LevelOf(tabs1, Base(a)) == 0;
      assert Rd(m1, a) == Rd(m0, a);
    }
  }

  lemma StepRefl(m: Memory, root: Word, tabs: Levels)
    requires Shape(m, root, tabs)
    ensures Step(m, m, root, tabs, tabs)
  {
  }

  /** The word stored into a slot of a table touches that table only. */
  lemma StoreElsewhere(m: Memory, t: Word, i: Word, x: Word, a: Word)
    requires Aligned(t) && ValidIndex(i) && Base(a) != t
    ensures Rd(Wr(m, SlotAddr(t, i), x), a) == Rd(m, a)
  {
    SlotInjective(t, i, t, i);
    hide SlotAddr, Base, ValidIndex, Aligned;
  }

  lemma ZeroedElsewhere(m: Memory, n: Word, a: Word)
    requires Base(a) != n
    ensures Rd(Zeroed(m, n), a) == Rd(m, a)
  {
    hide Base;
  }

  lemma HangStepFrame(m: Memory, root: Word, tabs: Levels, t: Word, i: Word, n: Word, e: Word)
    requires TablesAligned(root, tabs) && LevelOf(tabs, t) > 1 && ValidIndex(i) && n != t
    ensures var m', tabs' := Wr(Zeroed(m, n), SlotAddr(t, i), e), Hang(tabs, t, n);
            forall a {:trigger Rd(m', a)} :: LevelOf(tabs', Base(a)) == 0 ==> Rd(m', a) == Rd(m, a)
  {
    var m', tabs' := Wr(Zeroed(m, n), SlotAddr(t, i), e), Hang(tabs, t, n);
    hide Base, SlotAddr, LevelOf, Hang, Rd, Wr, Zeroed, ValidIndex, Aligned;
    forall a | LevelOf(tabs', Base(a)) == 0
      ensures Rd(m', a) == Rd(m, a)
    {
      HangLevels(tabs, t, n, Base(a));
      StoreElsewhere(Zeroed(m, n), t, i, e, a);
      ZeroedElsewhere(m, n, a);
    }
  }

  lemma CanHangZeroed(m: Memory, root: Word, tabs: Levels, t: Word, i: Word, n: Word, e: Word)
    requires Shape(m, root, tabs) && Inner(root, tabs, t, i) && Below(m, t, i) == None
    requires Aligned(n) && LevelOf(tabs, n) == 0 && Present(e) && Base(e) == n
    ensures Shape(Zeroed(m, n), root, tabs) && CanHang(Zeroed(m, n), root, tabs, t, i, e)
    ensures AgreeOnTables(m, Zeroed(m, n), root, tabs)
  {
    ShapeAligned(m, root, tabs);
    ZeroedAgrees(m, root, tabs, n);
    AgreeKeepsShape(m, Zeroed(m, n), root, tabs);
    ZeroedIsZero(m, n);
    hide Base, SlotAddr, Rd, Zeroed, Aligned, Present, Below, Shape, ZeroTable, LevelOf, ValidIndex;
  }

  /** A cleared pool page hung into an absent slot. */
  lemma HangIsStep(m: Memory, root: Word, tabs: Levels, t: Word, i: Word, n: Word, e: Word)
    requires Shape(m, root, tabs) && Inner(root, tabs, t, i) && Below(m, t, i) == None
    requires Aligned(n) && LevelOf(tabs, n) == 0 && Present(e) && Base(e) == n
    ensures LevelOf(tabs, t) > 0 && Step(m, Wr(Zeroed(m, n), SlotAddr(t, i), e), root, tabs, Hang(tabs, t, n))
  {
    var z := Zeroed(m, n);
    CanHangZeroed(m, root, tabs, t, i, n, e);
    HangFresh(z, root, tabs, t, i, e);
    ShapeAligned(m, root, tabs);
    HangKeepsShape(z, root, tabs, t, i, e);
    if Rooted(m, root, tabs) {
      AgreeKeepsRooted(m, z, root, tabs);
      HangKeepsRooted(z, root, tabs, t, i, e);
    }
    HangIndex(root, tabs, t, i);
    HangStepFrame(m, root, tabs, t, i, n, e);
    hide Base, SlotAddr, Rd, Wr, Zeroed, Aligned, Present, Below, Shape, ZeroTable, LevelOf, ValidIndex, CanHang,
      Inner, AgreeOnTables, Hang, Leaf, Outside510,
      Rooted;
    var m', tabs' := Wr(z, SlotAddr(t, i), e), Hang(tabs, t, n);
    forall vb | Outside510(vb)
      ensures Leaf(m', root, vb) == Leaf(m, root, vb)
    {
      HangKeepsLeaves(z, root, tabs, t, i, e, vb);
      AgreeKeepsLeaf(m, z, root, tabs, vb);
    }
    forall u | LevelOf(tabs, u) > 0
      ensures LevelOf(tabs', u) == LevelOf(tabs, u)
    {
      HangLevels(tabs, t, n, u);
    }
  }

  lemma HangIndex(root: Word, tabs: Levels, t: Word, i: Word)
    requires Inner(root, tabs, t, i)
    ensures ValidIndex(i) && LevelOf(tabs, t) > 1
  {
    hide ValidIndex, LevelOf;
  }

  /** ... and in the walk of va. */
  lemma HangOnPath(m: Memory, root: Word, tabs: Levels, va: Word, n: Word, e: Word, level: nat)
    requires Shape(m, root, tabs) && Outside510(va) && 2 <= level <= 4 && TableAt(m, root, va, level).Some?
    requires Below(m, TableAt(m, root, va, level).value, Index(level, va)) == None
    requires Aligned(n) && LevelOf(tabs, n) == 0 && Present(e) && Base(e) == n
    ensures var m' := Wr(Zeroed(m, n), SlotAddr(TableAt(m, root, va, level).value, Index(level, va)), e);
            TableAt(m', root, va, level - 1) == Some(n) && (level > 2 ==> TableAt(m', root, va, level - 2) == None)
  {
    var t, i := TableAt(m, root, va, level).value, Index(level, va);
    InnerOnWalk(m, root, tabs, va, level);
    CanHangZeroed(m, root, tabs, t, i, n, e);
    AgreeKeepsTables(m, Zeroed(m, n), root, tabs, va, level);
    hide Base, SlotAddr, Rd, Wr, Zeroed, Aligned, Present, Below, Shape, ZeroTable, LevelOf, ValidIndex, CanHang,
      Inner, AgreeOnTables, Index, TableAt, Outside510;
    HungPath(Zeroed(m, n), root, tabs, va, e, level);
  }

  /** An empty table has no entry at all for va. */
  lemma NewTableDirect(m: Memory, root: Word, va: Word, level: nat)
    requires 2 <= level <= 4
    requires TableAt(m, root, va, level - 1) == None
    ensures DirectEntry(m, root, va, level)
  {
    TableAbsentDirect(m, root, va, level);
  }

  lemma TableAbsentDirect(m: Memory, root: Word, va: Word, level: nat)
    requires 2 <= level <= 4 && TableAt(m, root, va, level - 1) == None
    ensures SlotOf(m, root, va, level).Some? ==> !Present(Rd(m, SlotOf(m, root, va, level).value))
  {
    TableStep(m, root, va, level - 1);
    hide TableAt, Index, Present, SlotAddr, Rd, Base;
  }

  lemma NoSlotDirect(m: Memory, root: Word, va: Word, level: nat)
    requires 1 <= level <= 4 && TableAt(m, root, va, level) == None
    ensures DirectEntry(m, root, va, level)
  {
  }

  /** The entries of va's path below a level point below 32 MB. */
  ghost predicate DirectBelow(m: Memory, root: Word, va: Word, level: nat) {
    && (level > 4 ==> DirectEntry(m, root, va, 4))
    && (level > 3 ==> DirectEntry(m, root, va, 3))
    && (level > 2 ==> DirectEntry(m, root, va, 2))
  }

  lemma HangKeepsDirect(m: Memory, root: Word, va: Word, level: nat)
    requires 2 <= level <= 4 && (level > 2 ==> TableAt(m, root, va, level - 2) == None)
    ensures DirectBelow(m, root, va, level)
  {
    hide DirectEntry, TableAt;
    if level == 4 {
      NewTableDirect(m, root, va, 3);
      NoSlotDirect(m, root, va, 2);
    } else if level == 3 {
      NewTableDirect(m, root, va, 2);
    }
  }

  lemma DirectStep(m: Memory, root: Word, va: Word, level: nat)
    requires 2 <= level <= 4 && DirectBelow(m, root, va, level + 1)
    ensures DirectEntry(m, root, va, level) && DirectBelow(m, root, va, level)
  {
    hide DirectEntry;
    if level == 4 {
    } else if level == 3 {
    } else {
    }
  }

  lemma PresentStep(m: Memory, root: Word, va: Word, level: nat)
    requires 2 <= level <= 4 && TableAt(m, root, va, level).Some?
    ensures var t := TableAt(m, root, va, level).value;
            var e := Rd(m, SlotAddr(t, Index(level, va)));
            && (Present(e) ==> TableAt(m, root, va, level - 1) == Some(Base(e)))
            && (!Present(e) ==> Below(m, t, Index(level, va)) == None)
            && (DirectEntry(m, root, va, level) && Present(e) ==> e < DIRECT_LIMIT)
  {
    TableStep(m, root, va, level - 1);
    if DirectEntry(m, root, va, level)
      && Present(Rd(m, SlotAddr(TableAt(m, root, va, level).value, Index(level, va)))) {
      SlotOnPath(m, root, va, level);
    }
    hide *;
    BelowMeans(m, TableAt(m, root, va, level).value, Index(level, va));
  }

  lemma BelowMeans(m: Memory, t: Word, i: Word)
    ensures Below(m, t, i) == if Present(Rd(m, SlotAddr(t, i))) then Some(Base(Rd(m, SlotAddr(t, i)))) else None
  {
    hide Present, Rd, SlotAddr, Base;
  }

  lemma SlotOnPath(m: Memory, root: Word, va: Word, level: nat)
    requires 2 <= level <= 4 && TableAt(m, root, va, level).Some? && DirectEntry(m, root, va, level)
    requires Present(Rd(m, SlotAddr(TableAt(m, root, va, level).value, Index(level, va))))
    ensures Rd(m, SlotAddr(TableAt(m, root, va, level).value, Index(level, va))) < DIRECT_LIMIT
  {
    hide Present, Rd, SlotAddr, TableAt, Index;
  }

  lemma PoolFacts(pool: seq<Word>, tabs: Levels, t: Word)
    requires PoolOk(pool, tabs) && pool != [] && LevelOf(tabs, t) > 0
    ensures Aligned(pool[0]) && pool[0] < DIRECT_LIMIT && LevelOf(tabs, pool[0]) == 0
    ensures PoolOk(pool[1..], Hang(tabs, t, pool[0]))
  {
    hide Aligned;
    forall k | 0 <= k < |pool[1..]|
      ensures LevelOf(Hang(tabs, t, pool[0]), pool[1..][k]) == 0
    {
      HangLevels(tabs, t, pool[0], pool[1..][k]);
    }
  }

  /** A cleared table hung into va's path keeps the path open if its entry has U and W. */
  lemma AddedTableOpen(m: Memory, root: Word, tabs: Levels, va: Word, n: Word, e: Word, level: nat)
    requires Shape(m, root, tabs) && Outside510(va) && 2 <= level <= 4 && TableAt(m, root, va, level).Some?
    requires Below(m, TableAt(m, root, va, level).value, Index(level, va)) == None
    requires Aligned(n) && LevelOf(tabs, n) == 0 && Present(e) && Base(e) == n
    ensures (UserAddr(va) ==> UserBit(e) && Writable(e)) && Open(m, root) ==>
              Open(Wr(Zeroed(m, n), SlotAddr(TableAt(m, root, va, level).value, Index(level, va)), e), root)
  {
    var t, i, z := TableAt(m, root, va, level).value, Index(level, va), Zeroed(m, n);
    hide *;
    InnerOnWalk(m, root, tabs, va, level);
    CanHangZeroed(m, root, tabs, t, i, n, e);
    AgreeKeepsTables(m, z, root, tabs, va, level);
    SameTableIs(m, z, root, va, level);
    if (UserAddr(va) ==> UserBit(e) && Writable(e)) && Open(m, root) {
      AgreeKeepsOpen(m, z, root, tabs);
      HangKeepsOpen(z, root, tabs, va, e, level);
    }
  }

  lemma SameTableIs(m: Memory, m': Memory, root: Word, va: Word, level: nat)
    requires 1 <= level <= 4 && SameTable(m, m', root, va, level)
    ensures TableAt(m', root, va, level) == TableAt(m, root, va, level)
  {
    hide TableAt;
  }

  /** The leaf store and the self-reference leave the upper levels of user addresses alone. */
  lemma EndStoresOpen(m: Memory, root: Word, tabs: Levels, va: Word, x: Word)
    requires Shape(m, root, tabs) && Outside510(va) && TableAt(m, root, va, 1).Some?
    ensures var m1 := Wr(m, SlotAddr(TableAt(m, root, va, 1).value, Index(1, va)), x);
            Open(m, root) ==> Open(Wr(m1, SlotAddr(root, SELF_INDEX), SelfWord(root)), root)
  {
    var t, i := TableAt(m, root, va, 1).value, Index(1, va);
    var m1 := Wr(m, SlotAddr(t, i), x);
    hide *;
    WalkStaysInside(m, root, tabs, va, 1);
    IndexBound(1, va);
    LeafStoreKeepsShape(m, root, tabs, t, i, x);
    ShapeAligned(m1, root, tabs);
    SelfStoreAgrees(m1, root, tabs, SelfWord(root));
    if Open(m, root) {
      LeafStoreKeepsOpen(m, root, tabs, t, i, x);
      AgreeKeepsOpen(m1, Wr(m1, SlotAddr(root, SELF_INDEX), SelfWord(root)), root, tabs);
    }
  }

  // ----- the two stores that end map_virmem_to_phymem -----

  /** The translation of va's page is the given word, every other page keeps its own. */
  ghost predicate Edited(m: Memory, m': Memory, root: Word, va: Word, x: Word) {
    forall vb {:trigger Leaf(m', root, vb)} :: Outside510(vb) ==>
      Leaf(m', root, vb) == if SamePrefix(va, vb, 0) then x else Leaf(m, root, vb)
  }

  /** Only tables of this address space differ. */
  ghost predicate SameElsewhere(m: Memory, m': Memory, tabs: Levels) {
    forall a {:trigger Rd(m', a)} :: LevelOf(tabs, Base(a)) == 0 ==> Rd(m', a) == Rd(m, a)
  }

  ghost predicate Grows(tabs: Levels, tabs': Levels) {
    forall u {:trigger LevelOf(tabs', u)} :: LevelOf(tabs, u) > 0 ==> LevelOf(tabs', u) == LevelOf(tabs, u)
  }

  /** New tables come from the pool, and what is left of the pool was in it. */
  ghost predicate Draws(tabs: Levels, tabs': Levels, pool: seq<Word>, pool': seq<Word>) {
    && (forall u {:trigger LevelOf(tabs', u)} :: LevelOf(tabs', u) > 0 ==> LevelOf(tabs, u) > 0 || u in pool)
    && forall u {:trigger u in pool'} :: u in pool' ==> u in pool
  }

  lemma DrawsRefl(tabs: Levels, pool: seq<Word>)
    ensures Draws(tabs, tabs, pool, pool)
  {
  }

  lemma DrawsTrans(tabs0: Levels, tabs1: Levels, tabs2: Levels, p0: seq<Word>, p1: seq<Word>, p2: seq<Word>)
    requires Draws(tabs0, tabs1, p0, p1) && Draws(tabs1, tabs2, p1, p2)
    ensures Draws(tabs0, tabs2, p0, p2)
  {
    hide LevelOf;
    forall u | LevelOf(tabs2, u) > 0
      ensures LevelOf(tabs0, u) > 0 || u in p0
    {
      assert LevelOf(tabs1, u) > 0 || u in p1;
    }
    forall u | u in p2
      ensures u in p0
    {
      assert u in p1;
    }
  }

  lemma HangDraws(tabs: Levels, t: Word, pool: seq<Word>)
    requires LevelOf(tabs, t) > 0 && pool != []
    ensures Draws(tabs, Hang(tabs, t, pool[0]), pool, pool[1..])
  {
    hide LevelOf, Hang;
    assert pool[0] in pool;
    forall u
      ensures LevelOf(Hang(tabs, t, pool[0]), u) == if u == pool[0] then LevelOf(tabs, t) - 1 else LevelOf(tabs, u)
    {
      HangLevels(tabs, t, pool[0], u);
    }
  }

  /** No page is a table of both. */
  ghost predicate Apart(tabs: Levels, other: Levels) {
    forall u {:trigger LevelOf(tabs, u)} {:trigger LevelOf(other, u)} ::
      !(LevelOf(tabs, u) > 0 && LevelOf(other, u) > 0)
  }

  lemma StaysApart(tabs: Levels, tabs': Levels, other: Levels, pool: seq<Word>, pool': seq<Word>)
    requires Apart(tabs, other) && Draws(tabs, tabs', pool, pool')
    requires forall u {:trigger LevelOf(other, u)} :: u in pool ==> LevelOf(other, u) == 0
    ensures Apart(tabs', other)
  {
    hide LevelOf;
  }

  /** A change confined to one address space's tables leaves another one's tables as they were. */
  lemma OtherSpaceAgrees(m: Memory, m': Memory, tabs: Levels, root: Word, other: Levels)
    requires SameElsewhere(m, m', tabs) && Apart(tabs, other) && TablesAligned(root, other)
    ensures AgreeOnTables(m, m', root, other)
    ensures Rd(m', SlotAddr(root, SELF_INDEX)) == Rd(m, SlotAddr(root, SELF_INDEX))
  {
    SelfIndexValid();
    RootAligned(root, other);
    SlotInjective(root, SELF_INDEX, root, SELF_INDEX);
    hide Base, SlotAddr, Aligned, Rd, ValidIndex, Below, LevelOf;
    forall u, j | Ordinary(root, other, u, j)
      ensures Rd(m', SlotAddr(u, j)) == Rd(m, SlotAddr(u, j)) && Below(m', u, j) == Below(m, u, j)
    {
      SlotInjective(u, j, u, j);
      assert Rd(m', SlotAddr(u, j)) == Rd(m, SlotAddr(u, j));
      BelowMeans(m, u, j);
      BelowMeans(m', u, j);
    }
    assert LevelOf(tabs, root) == 0;
  }

  /** Whatever map_virmem_to_phymem does to one address space, another one built from other pages keeps
      its shape and every translation. */
  lemma OtherSpacesUntouched(m: Memory, m': Memory, tabs: Levels, tabs': Levels, pool: seq<Word>, pool': seq<Word>,
                             root: Word, other: Levels, vb: Word)
    requires SameElsewhere(m, m', tabs') && Draws(tabs, tabs', pool, pool') && Apart(tabs, other)
    requires forall u {:trigger LevelOf(other, u)} :: u in pool ==> LevelOf(other, u) == 0
    requires Shape(m, root, other) && Outside510(vb)
    ensures Shape(m', root, other) && Leaf(m', root, vb) == Leaf(m, root, vb)
    ensures Rd(m', SlotAddr(root, SELF_INDEX)) == Rd(m, SlotAddr(root, SELF_INDEX))
  {
    ShapeAligned(m, root, other);
    hide *;
    StaysApart(tabs, tabs', other, pool, pool');
    OtherSpaceAgrees(m, m', tabs', root, other);
    AgreeKeepsShape(m, m', root, other);
    AgreeKeepsLeaf(m, m', root, other, vb);
  }

  lemma SelfStoreAgrees(m: Memory, root: Word, tabs: Levels, x: Word)
    requires TablesAligned(root, tabs)
    ensures AgreeOnTables(m, Wr(m, SlotAddr(root, SELF_INDEX), x), root, tabs)
    ensures Rd(Wr(m, SlotAddr(root, SELF_INDEX), x), SlotAddr(root, SELF_INDEX)) == x
  {
    SelfIndexValid();
    hide SlotAddr, ValidIndex, Aligned, Rd, Wr, Below, LevelOf;
    SlotStore(m, root, SELF_INDEX, x, root, SELF_INDEX);
    forall u, j | Ordinary(root, tabs, u, j)
      ensures Rd(Wr(m, SlotAddr(root, SELF_INDEX), x), SlotAddr(u, j)) == Rd(m, SlotAddr(u, j))
      ensures Below(Wr(m, SlotAddr(root, SELF_INDEX), x), u, j) == Below(m, u, j)
    {
      SlotStore(m, root, SELF_INDEX, x, u, j);
    }
  }

  lemma SelfIndexValid()
    ensures ValidIndex(SELF_INDEX)
  {
  }

  lemma LeafStoreElsewhere(m0: Memory, m: Memory, tabs: Levels, t: Word, i: Word, x: Word)
    requires SameElsewhere(m0, m, tabs) && Aligned(t) && ValidIndex(i) && LevelOf(tabs, t) > 0
    ensures SameElsewhere(m0, Wr(m, SlotAddr(t, i), x), tabs)
  {
    hide SlotAddr, ValidIndex, Aligned, Rd, Wr, LevelOf, Base;
    forall a | LevelOf(tabs, Base(a)) == 0
      ensures Rd(Wr(m, SlotAddr(t, i), x), a) == Rd(m0, a)
    {
      StoreElsewhere(m, t, i, x, a);
      assert Rd(m, a) == Rd(m0, a);
    }
  }

  lemma LeafStoreIsEdit(m0: Memory, m: Memory, root: Word, tabs: Levels, va: Word, x: Word)
    requires Shape(m, root, tabs) && SameLeaves(m0, m, root) && Outside510(va) && SlotOf(m, root, va, 1).Some?
    ensures Edited(m0, Wr(m, SlotOf(m, root, va, 1).value, x), root, va, x)
  {
    var m' := Wr(m, SlotOf(m, root, va, 1).value, x);
    hide Rd, Wr, Shape, SlotOf, Leaf, SamePrefix, Outside510;
    forall vb | Outside510(vb)
      ensures Leaf(m', root, vb) == if SamePrefix(va, vb, 0) then x else Leaf(m0, root, vb)
    {
      LeafStoreRefines(m, root, tabs, va, x, vb);
      assert Leaf(m, root, vb) == Leaf(m0, root, vb);
    }
  }

  /** The leaf store, seen from the memory before the walk began. */
  lemma LeafStoreEdits(m0: Memory, m: Memory, root: Word, tabs0: Levels, tabs: Levels, va: Word, x: Word)
    requires Step(m0, m, root, tabs0, tabs) && Outside510(va) && TableAt(m, root, va, 1).Some?
    ensures var m' := Wr(m, SlotAddr(TableAt(m, root, va, 1).value, Index(1, va)), x);
            && Shape(m', root, tabs) && Edited(m0, m', root, va, x) && SameElsewhere(m0, m', tabs)
            && (Rooted(m0, root, tabs0) ==> Rooted(m', root, tabs))
  {
    var t, i := TableAt(m, root, va, 1).value, Index(1, va);
    SlotAtLeaf(m, root, va);
    StepShape(m0, m, root, tabs0, tabs);
    hide Rd, Wr, Shape, SlotOf, TableAt, Edited, SlotAddr, LevelOf, Index, SameLeaves, SameElsewhere, Grows, Aligned,
      ValidIndex, Rooted;
    WalkStaysInside(m, root, tabs, va, 1);
    IndexBound(1, va);
    ShapeAligned(m, root, tabs);
    LeafStoreKeepsShape(m, root, tabs, t, i, x);
    if Rooted(m0, root, tabs0) {
      LeafStoreKeepsRooted(m, root, tabs, t, i, x);
    }
    LeafStoreIsEdit(m0, m, root, tabs, va, x);
    LeafStoreElsewhere(m0, m, tabs, t, i, x);
  }

  lemma RootAligned(root: Word, tabs: Levels)
    requires TablesAligned(root, tabs)
    ensures Aligned(root) && LevelOf(tabs, root) == 4
  {
    hide Aligned, LevelOf;
  }

  lemma SlotAtLeaf(m: Memory, root: Word, va: Word)
    requires TableAt(m, root, va, 1).Some?
    ensures SlotOf(m, root, va, 1) == Some(SlotAddr(TableAt(m, root, va, 1).value, Index(1, va)))
  {
    hide TableAt, SlotAddr, Index;
  }

  /** Enabling the self-reference changes no translation outside slot 510. */
  lemma SelfStoreEdits(m0: Memory, m: Memory, root: Word, tabs: Levels, va: Word, x: Word)
    requires Shape(m, root, tabs) && Edited(m0, m, root, va, x) && SameElsewhere(m0, m, tabs)
    ensures var m' := Wr(m, SlotAddr(root, SELF_INDEX), SelfWord(root));
            && Shape(m', root, tabs) && Edited(m0, m', root, va, x) && SameElsewhere(m0, m', tabs)
            && Rd(m', SlotAddr(root, SELF_INDEX)) == SelfWord(root)
            && (Rooted(m, root, tabs) ==> Rooted(m', root, tabs))
  {
    var w := SelfWord(root);
    SelfIndexValid();
    ShapeAligned(m, root, tabs);
    RootAligned(root, tabs);
    hide SlotAddr, ValidIndex, Aligned, Rd, Wr, Below, LevelOf, Shape, Leaf, SamePrefix, Outside510, Base,
      AgreeOnTables, SameElsewhere,
      Rooted;
    var m' := Wr(m, SlotAddr(root, SELF_INDEX), w);
    SelfStoreAgrees(m, root, tabs, w);
    AgreeKeepsShape(m, m', root, tabs);
    if Rooted(m, root, tabs) {
      AgreeKeepsRooted(m, m', root, tabs);
    }
    LeafStoreElsewhere(m0, m, tabs, root, SELF_INDEX, w);
    forall vb | Outside510(vb)
      ensures Leaf(m', root, vb) == if SamePrefix(va, vb, 0) then x else Leaf(m0, root, vb)
    {
      AgreeKeepsLeaf(m, m', root, tabs, vb);
      assert Leaf(m, root, vb) == if SamePrefix(va, vb, 0) then x else Leaf(m0, root, vb);
    }
  }

  lemma RootTable(m: Memory, root: Word, va: Word)
    ensures TableAt(m, root, va, 4) == Some(root)
  {
  }

  lemma StepGrows(m: Memory, m': Memory, root: Word, tabs: Levels, tabs': Levels)
    requires Step(m, m', root, tabs, tabs')
    ensures Grows(tabs, tabs')
  {
    hide Shape, SameElsewhere, SameLeaves, Grows;
  }

  lemma MappedParts(m: Memory, m': Memory, root: Word, tabs: Levels, tabs': Levels, pool: seq<Word>,
                    pool': seq<Word>, va: Word, phys: Word, userMap: bool, setFlags: bool)
    ensures VirmemMapped(m, m', root, tabs, tabs', pool, pool', va, phys, userMap, setFlags) <==>
            && Shape(m', root, tabs') && Edited(m, m', root, va, LeafWord(phys, setFlags, userMap))
            && Rd(m', SlotAddr(root, SELF_INDEX)) == SelfWord(root)
            && SameElsewhere(m, m', tabs') && Draws(tabs, tabs', pool, pool')
            && ((UserAddr(va) ==> userMap) && Open(m, root) ==> Open(m', root))
  {
    hide Shape, Edited, LeafWord, Rd, SlotAddr, SelfWord, SameElsewhere, Draws, UserAddr, Open;
  }

  /** What one call of map_virmem_to_phymem does to physical memory. */
  ghost predicate VirmemMapped(m: Memory, m': Memory, root: Word, tabs: Levels, tabs': Levels, pool: seq<Word>,
                               pool': seq<Word>, va: Word, phys: Word, userMap: bool, setFlags: bool) {
    && Shape(m', root, tabs') && Edited(m, m', root, va, LeafWord(phys, setFlags, userMap))
    && Rd(m', SlotAddr(root, SELF_INDEX)) == SelfWord(root)
    && SameElsewhere(m, m', tabs') && Draws(tabs, tabs', pool, pool')
    && ((UserAddr(va) ==> userMap) && Open(m, root) ==> Open(m', root))
  }

  class Tables {
    var mem: Memory
    /** Physical address of global_PML4. */
    var root: Word
    /** The pages kmalloc(USERPT) hands out next, in order. */
    var pool: seq<Word>
    ghost var tabs: Levels

    ghost predicate Valid()
      reads this
    {
      Shape(mem, root, tabs) && PoolOk(pool, tabs)
    }

    method Kmalloc() returns (t: Word)
      requires pool != []
      modifies this`mem, this`pool
      ensures t == old(pool)[0] && pool == old(pool)[1..] && mem == Zeroed(old(mem), t)
    {
      t := pool[0];
      pool := pool[1..];
      mem := Zeroed(mem, t);
    }

    /** set_pdpt, set_pdt and set_pt. */
    method SetTable(t: Word, i: Word, userMap: bool) returns (n: Word)
      requires pool != []
      modifies this`mem, this`pool
      ensures n == old(pool)[0] && pool == old(pool)[1..]
      ensures mem == Wr(Zeroed(old(mem), n), SlotAddr(t, i), TableEntry(n, userMap))
      ensures Aligned(n) && n < DIRECT_LIMIT ==>
                var e := Rd(mem, SlotAddr(t, i));
                Base(e) == n && Present(e) && Writable(e) && (UserBit(e) <==> userMap)
    {
      hide *;
      n := Kmalloc();
      EntryStored(mem, n, t, i, userMap);
      var e := UpperEntry(n, userMap);
      mem := Wr(mem, SlotAddr(t, i), e);
    }

    /** The entry of set_pdpt, set_pdt and set_pt. */
    static method UpperEntry(n: Word, userMap: bool) returns (e: Word)
      ensures e == TableEntry(n, userMap)
    {
      e := n;
      if userMap {
        e := e | PTE_U;
      }
      e := e | (PTE_P | PTE_W);
    }

    /** One of the three if-statements: follow the entry of va, or create what it lacks. */
    method NextTable(t: Word, va: Word, level: nat, userMap: bool) returns (n: Word)
      requires Valid() && pool != [] && Outside510(va) && 2 <= level <= 4
      requires TableAt(mem, root, va, level) == Some(t) && DirectBelow(mem, root, va, level + 1)
      modifies this`mem, this`pool, this`tabs
      ensures Valid() && Step(old(mem), mem, root, old(tabs), tabs)
      ensures TableAt(mem, root, va, level - 1) == Some(n) && DirectBelow(mem, root, va, level)
      ensures |pool| >= |old(pool)| - 1 && Draws(old(tabs), tabs, old(pool), pool)
      ensures (UserAddr(va) ==> userMap) && Open(old(mem), root) ==> Open(mem, root)
    {
      hide *;
      DirectStep(mem, root, va, level);
      PresentStep(mem, root, va, level);
      ValidParts();
      var e := Rd(mem, SlotAddr(t, Index(level, va)));
      if Present(e) {
        n := Pointer(e);
        StepRefl(mem, root, tabs);
        DrawsRefl(tabs, pool);
      } else {
        n := AddTable(t, va, level, userMap);
      }
    }

    lemma ValidParts()
      ensures Valid() <==> Shape(mem, root, tabs) && PoolOk(pool, tabs)
    {
      hide Shape, PoolOk;
    }

    /** get_vir_from_phy and the offset mask, seen through the direct map. */
    static method Pointer(e: Word) returns (n: Word)
      requires e < DIRECT_LIMIT
      ensures n == Base(e)
    {
      var pointer := VIR_START | e;
      pointer := pointer & CLEAR_OFFSET;
      DirectPointer(e);
      n := pointer - VIR_START;
    }

    /** The three levels of the walk, down to va's page table. */
    method WalkDown(va: Word, userMap: bool) returns (pt: Word)
      requires Valid() && |pool| >= 3 && Outside510(va) && DirectBelow(mem, root, va, 5)
      modifies this`mem, this`pool, this`tabs
      ensures Valid() && Step(old(mem), mem, root, old(tabs), tabs) && TableAt(mem, root, va, 1) == Some(pt)
      ensures Draws(old(tabs), tabs, old(pool), pool)
      ensures (UserAddr(va) ==> userMap) && Open(old(mem), root) ==> Open(mem, root)
    {
      hide *;
      ghost var m0, tabs0, p0 := mem, tabs, pool;
      RootTable(mem, root, va);
      var pdpt := NextTable(root, va, 4, userMap);
      ghost var m1, tabs1, p1 := mem, tabs, pool;
      var pdt := NextTable(pdpt, va, 3, userMap);
      StepTrans(m0, m1, mem, root, tabs0, tabs1, tabs);
      DrawsTrans(tabs0, tabs1, tabs, p0, p1, pool);
      ghost var m2, tabs2, p2 := mem, tabs, pool;
      pt := NextTable(pdt, va, 2, userMap);
      StepTrans(m0, m2, mem, root, tabs0, tabs2, tabs);
      DrawsTrans(tabs0, tabs2, tabs, p0, p2, pool);
    }

    /** map_virmem_to_phymem: the page of va is mapped to the given word, no other page's translation
        changes, only tables of this address space and pool pages are written, every table keeps its one
        parent slot, slot 510 refers to the root, and the tables above user addresses keep U and W. */
    method MapVirmemToPhymem(va: Word, phys: Word, userMap: bool, setFlags: bool)
      requires Valid() && |pool| >= 3 && Outside510(va) && DirectBelow(mem, root, va, 5)
      modifies this`mem, this`pool, this`tabs
      ensures Valid() && Grows(old(tabs), tabs)
      ensures VirmemMapped(old(mem), mem, root, old(tabs), tabs, old(pool), pool, va, phys, userMap, setFlags)
      ensures Rooted(old(mem), root, old(tabs)) ==> Rooted(mem, root, tabs)
    {
      hide *;
      ghost var m0, tabs0 := mem, tabs;
      var pt := WalkDown(va, userMap);
      StepGrows(m0, mem, root, tabs0, tabs);
      var pte := MakeLeaf(phys, userMap, setFlags);
      FinishMapping(va, pt, pte, m0, tabs0);
      ValidParts();
      MappedParts(m0, mem, root, tabs0, tabs, old(pool), pool, va, phys, userMap, setFlags);
    }

    /** The leaf store and the self-reference. */
    method FinishMapping(va: Word, pt: Word, pte: Word, ghost m0: Memory, ghost tabs0: Levels)
      requires Valid() && Outside510(va) && Step(m0, mem, root, tabs0, tabs) && TableAt(mem, root, va, 1) == Some(pt)
      modifies this`mem
      ensures Valid() && Edited(m0, mem, root, va, pte) && SameElsewhere(m0, mem, tabs)
      ensures Rd(mem, SlotAddr(root, SELF_INDEX)) == SelfWord(root)
      ensures Rooted(m0, root, tabs0) ==> Rooted(mem, root, tabs)
      ensures Open(old(mem), root) ==> Open(mem, root)
    {
      hide *;
      ValidParts();
      LeafStoreEdits(m0, mem, root, tabs0, tabs, va, pte);
      EndStoresOpen(mem, root, tabs, va, pte);
      mem := Wr(mem, SlotAddr(pt, Index(1, va)), pte);
      SelfStoreEdits(m0, mem, root, tabs, va, pte);
      mem := Wr(mem, SlotAddr(root, SELF_INDEX), SelfWord(root));
      ValidParts();
    }

    static method MakeLeaf(phys: Word, userMap: bool, setFlags: bool) returns (pte: Word)
      ensures pte == LeafWord(phys, setFlags, userMap)
    {
      pte := phys;
      if setFlags {
        pte := pte | (PTE_P | PTE_W);
        if userMap {
          pte := pte | PTE_U;
        }
      }
    }

    method AddTable(t: Word, va: Word, level: nat, userMap: bool) returns (n: Word)
      requires Valid() && pool != [] && Outside510(va) && 2 <= level <= 4
      requires TableAt(mem, root, va, level) == Some(t) && Below(mem, t, Index(level, va)) == None
      modifies this`mem, this`pool, this`tabs
      ensures Valid() && Step(old(mem), mem, root, old(tabs), tabs)
      ensures TableAt(mem, root, va, level - 1) == Some(n) && DirectBelow(mem, root, va, level)
      ensures |pool| >= |old(pool)| - 1 && Draws(old(tabs), tabs, old(pool), pool)
      ensures (UserAddr(va) ==> userMap) && Open(old(mem), root) ==> Open(mem, root)
    {
      hide *;
      ValidParts();
      ghost var i, first := Index(level, va), pool[0];
      WalkLevel(mem, root, tabs, va, level);
      PoolFacts(pool, tabs, t);
      HangDraws(tabs, t, pool);
      TableEntryFacts(first, userMap);
      HangIsStep(mem, root, tabs, t, i, first, TableEntry(first, userMap));
      HangOnPath(mem, root, tabs, va, first, TableEntry(first, userMap), level);
      AddedTableOpen(mem, root, tabs, va, first, TableEntry(first, userMap), level);
      n := SetTable(t, Index(level, va), userMap);
      tabs := Hang(tabs, t, n);
      HangKeepsDirect(mem, root, va, level);
      StepShape(old(mem), mem, root, old(tabs), tabs);
      ValidParts();
    }
  }

  lemma WalkLevel(m: Memory, root: Word, tabs: Levels, va: Word, level: nat)
    requires Shape(m, root, tabs) && Outside510(va) && 2 <= level <= 4 && TableAt(m, root, va, level).Some?
    ensures LevelOf(tabs, TableAt(m, root, va, level).value) > 0
    ensures Inner(root, tabs, TableAt(m, root, va, level).value, Index(level, va))
  {
    WalkStaysInside(m, root, tabs, va, level);
    InnerOnWalk(m, root, tabs, va, level);
    hide *;
  }

  lemma StepShape(m: Memory, m': Memory, root: Word, tabs: Levels, tabs': Levels)
    requires Step(m, m', root, tabs, tabs')
    ensures Shape(m', root, tabs')
  {
    hide Shape, LevelOf, Rd, Base, SameLeaves;
  }

  /** The two mechanisms agree: what map_virmem_to_phymem stores for va is what self_ref_read at
      level PT returns once the address space is loaded. */
  lemma WindowReadsWhatWasMapped(m0: Memory, m: Memory, cr3: Word, tabs: Levels, va: Word, x: Word)
    requires Shape(m, Base(cr3), tabs) && Edited(m0, m, Base(cr3), va, x) && Outside510(va)
    requires Rd(m, SlotAddr(Base(cr3), SELF_INDEX)) == SelfWord(Base(cr3)) && x != 0
    ensures Walk(m, cr3, WindowAddr(1, va)).Some? && Rd(m, Walk(m, cr3, WindowAddr(1, va)).value) == x
  {
    ShapeAligned(m, Base(cr3), tabs);
    RootAligned(Base(cr3), tabs);
    SamePageAsItself(va);
    assert Leaf(m, Base(cr3), va) == x;
    LeafNeedsSlot(m, Base(cr3), va);
    hide *;
    SelfWordRefers(m, Base(cr3));
    WindowReadsLeaf(m, cr3, va);
  }

  lemma SamePageAsItself(va: Word)
    ensures SamePrefix(va, va, 0)
  {
    hide Index;
  }

  lemma LeafNeedsSlot(m: Memory, root: Word, va: Word)
    ensures Leaf(m, root, va) != 0 ==> SlotOf(m, root, va, 1).Some?
  {
    hide SlotOf, Rd;
  }

  /** A user access to a page just mapped is decided by the word mapped: with flags it is granted, reads and
      writes; without, as fork stores its marked word, by the word's own U and W. */
  lemma MappedAccess(m: Memory, m': Memory, root: Word, tabs: Levels, tabs': Levels, pool: seq<Word>, pool': seq<Word>,
                     va: Word, phys: Word, setFlags: bool, write: bool)
    requires VirmemMapped(m, m', root, tabs, tabs', pool, pool', va, phys, true, setFlags)
    requires Open(m, root) && UserAddr(va)
    ensures setFlags && Aligned(phys) ==> UserAccess(m', root, va, write)
    ensures !setFlags ==> (UserAccess(m', root, va, write) <==> Passes(phys, write))
  {
    hide *;
    MappedParts(m, m', root, tabs, tabs', pool, pool', va, phys, true, setFlags);
    UserIsOutside(va);
    SamePageAsItself(va);
    LeafWordBits(phys, true);
    EditedLeaf(m, m', root, va, LeafWord(phys, setFlags, true));
    LeafDecides(m', root, va, write);
    PassesIs(LeafWord(phys, setFlags, true), write);
  }

  lemma EditedLeaf(m: Memory, m': Memory, root: Word, va: Word, x: Word)
    requires Edited(m, m', root, va, x) && Outside510(va) && SamePrefix(va, va, 0)
    ensures Leaf(m', root, va) == x
  {
    hide Leaf, SamePrefix, Outside510;
  }

  lemma PassesIs(e: Word, write: bool)
    ensures Passes(e, write) <==> Present(e) && UserBit(e) && (write ==> Writable(e))
  {
    hide Present, UserBit, Writable;
  }
}
