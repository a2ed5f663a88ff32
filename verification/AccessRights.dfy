/** The hardware's permission check over all four levels (section 4.6 of Intel SDM volume 3A): below a
    user address every table must let user-mode stores through, or the leaf's own rights are worthless. */
module AccessRights {
  import opened PageTable

  /** The lower half of the address space; the kernel's 32 MB map lies in slot 511. */
  predicate UserAddr(va: Word) { Index(4, va) < 256 }

  lemma UserIsOutside(va: Word)
    requires UserAddr(va)
    ensures Outside510(va)
  {
    hide Index;
  }

  /** One entry lets a user-mode access through. */
  predicate Passes(e: Word, write: bool) {
    Present(e) && UserBit(e) && (write ==> Writable(e))
  }

  ghost predicate PassesAt(m: Memory, root: Word, va: Word, write: bool, level: nat)
    requires 1 <= level <= 4
  {
    SlotOf(m, root, va, level).Some? && Passes(Rd(m, SlotOf(m, root, va, level).value), write)
  }

  /** A user-mode access is permitted only if the entries of all four levels let it through. */
  ghost predicate UserAccess(m: Memory, root: Word, va: Word, write: bool) {
    && PassesAt(m, root, va, write, 4) && PassesAt(m, root, va, write, 3)
    && PassesAt(m, root, va, write, 2) && PassesAt(m, root, va, write, 1)
  }

  /** The entry at an upper level, if present, has PTE_U and PTE_W. */
  ghost predicate OpenAt(m: Memory, root: Word, va: Word, level: nat)
    requires 1 <= level <= 4
  {
    SlotOf(m, root, va, level).Some? && Present(Rd(m, SlotOf(m, root, va, level).value)) ==>
      var e := Rd(m, SlotOf(m, root, va, level).value); UserBit(e) && Writable(e)
  }

  /** No upper-level entry above a user address takes rights away. */
  ghost predicate Open(m: Memory, root: Word) {
    forall va, level {:trigger OpenAt(m, root, va, level)} :: UserAddr(va) && 2 <= level <= 4 ==>
      OpenAt(m, root, va, level)
  }

  /** Where that holds, an access to a user address is decided by the leaf alone. */
  lemma LeafDecides(m: Memory, root: Word, va: Word, write: bool)
    requires Open(m, root) && UserAddr(va)
    ensures UserAccess(m, root, va, write) <==> Passes(Leaf(m, root, va), write)
  {
    assert OpenAt(m, root, va, 4) && OpenAt(m, root, va, 3) && OpenAt(m, root, va, 2);
    hide *;
    LeafPasses(m, root, va, write);
    AllPass(m, root, va, write);
    if PassesAt(m, root, va, write, 1) {
      PassesAbove(m, root, va, write, 1);
      PassesAbove(m, root, va, write, 2);
      PassesAbove(m, root, va, write, 3);
    }
  }

  lemma AllPass(m: Memory, root: Word, va: Word, write: bool)
    ensures UserAccess(m, root, va, write) <==>
            && PassesAt(m, root, va, write, 4) && PassesAt(m, root, va, write, 3)
            && PassesAt(m, root, va, write, 2) && PassesAt(m, root, va, write, 1)
  {
    hide PassesAt;
  }

  lemma LeafPasses(m: Memory, root: Word, va: Word, write: bool)
    ensures PassesAt(m, root, va, write, 1) <==> Passes(Leaf(m, root, va), write)
  {
    ZeroIsNotPresent();
    hide SlotOf, Present, UserBit, Writable;
  }

  /** What lets an access through has a table above it that does. */
  lemma PassesAbove(m: Memory, root: Word, va: Word, write: bool, level: nat)
    requires 1 <= level < 4 && PassesAt(m, root, va, write, level) && OpenAt(m, root, va, level + 1)
    ensures PassesAt(m, root, va, write, level + 1)
  {
    TablesAbove(m, root, va, level);
    hide SlotOf, Present, UserBit, Writable;
  }

  lemma ZeroIsNotPresent()
    ensures !Present(0)
  {
  }

  /** A walk that gets to a level has found a present entry at the level above. */
  lemma TablesAbove(m: Memory, root: Word, va: Word, level: nat)
    requires 1 <= level < 4
    ensures SlotOf(m, root, va, level).Some? ==>
              && SlotOf(m, root, va, level + 1).Some?
              && Present(Rd(m, SlotOf(m, root, va, level + 1).value))
  {
    TableStep(m, root, va, level);
    hide Index, SlotAddr, Present, Base, Rd, TableAt;
  }

  // ----- stores that keep it -----

  lemma SlotIs(m: Memory, root: Word, va: Word, level: nat)
    requires 1 <= level <= 4
    ensures SlotOf(m, root, va, level) ==
            if TableAt(m, root, va, level).Some?
            then Some(SlotAddr(TableAt(m, root, va, level).value, Index(level, va))) else None
  {
    hide TableAt, Index, SlotAddr;
  }

  /** Two user addresses, or rather: whoever shares the slot above a user address is one. */
  lemma SameSlotSameHalf(m: Memory, root: Word, tabs: Levels, va: Word, vb: Word, level: nat)
    requires Shape(m, root, tabs) && Outside510(va) && UserAddr(vb) && 1 <= level <= 4
    requires TableAt(m, root, va, level).Some? && TableAt(m, root, va, level) == TableAt(m, root, vb, level)
    requires Index(level, va) == Index(level, vb)
    ensures UserAddr(va)
  {
    UserIsOutside(vb);
    WalksMeet(m, root, tabs, va, vb, level);
    hide Pml4Index, PdptIndex, PdtIndex, PtIndex, TableAt, Shape;
  }

  /** A table hung into the path of va: entries above other user addresses stay or are empty. */
  lemma HangOpenAt(m: Memory, root: Word, tabs: Levels, va: Word, e: Word, level: nat, vb: Word, at: nat)
    requires Shape(m, root, tabs) && Outside510(va) && 2 <= level <= 4 && TableAt(m, root, va, level).Some?
    requires CanHang(m, root, tabs, TableAt(m, root, va, level).value, Index(level, va), e)
    requires UserAddr(va) ==> UserBit(e) && Writable(e)
    requires UserAddr(vb) && 2 <= at <= 4 && OpenAt(m, root, vb, at)
    ensures OpenAt(Wr(m, SlotAddr(TableAt(m, root, va, level).value, Index(level, va)), e), root, vb, at)
  {
    var t, i := TableAt(m, root, va, level).value, Index(level, va);
    var m' := Wr(m, SlotAddr(t, i), e);
    UserIsOutside(vb);
    HangTables(m, root, tabs, t, i, e, vb, at);
    SlotIs(m, root, vb, at);
    SlotIs(m', root, vb, at);
    hide UserAddr, Outside510, Shape, CanHang, TableAt, Index, SlotAddr, Rd, Wr, Present, UserBit, Writable, SlotOf,
      Base;
    var now := TableAt(m', root, vb, at);
    if now.Some? {
      if now == TableAt(m, root, vb, at) {
        OldEntry(m, root, tabs, va, e, level, vb, at);
      } else {
        NewEntry(m, root, tabs, t, i, e, Index(at, vb), at, vb);
      }
    }
  }

  lemma OldEntry(m: Memory, root: Word, tabs: Levels, va: Word, e: Word, level: nat, vb: Word, at: nat)
    requires Shape(m, root, tabs) && Outside510(va) && 2 <= level <= 4 && TableAt(m, root, va, level).Some?
    requires UserAddr(vb) && 2 <= at <= 4 && TableAt(m, root, vb, at).Some?
    ensures var t, i, u := TableAt(m, root, va, level).value, Index(level, va), TableAt(m, root, vb, at).value;
            Rd(Wr(m, SlotAddr(t, i), e), SlotAddr(u, Index(at, vb))) == Rd(m, SlotAddr(u, Index(at, vb)))
            || (Rd(Wr(m, SlotAddr(t, i), e), SlotAddr(u, Index(at, vb))) == e && UserAddr(va))
  {
    var t, i, u := TableAt(m, root, va, level).value, Index(level, va), TableAt(m, root, vb, at).value;
    UserIsOutside(vb);
    WalkStaysInside(m, root, tabs, va, level);
    WalkStaysInside(m, root, tabs, vb, at);
    IndexBound(level, va);
    IndexBound(at, vb);
    ShapeAligned(m, root, tabs);
    hide UserAddr, Outside510, Shape, TableAt, Index, SlotAddr, Rd, Wr, LevelOf, Aligned, ValidIndex;
    SlotStore(m, t, i, e, u, Index(at, vb));
    if u == t && Index(at, vb) == i {
      SameSlotSameHalf(m, root, tabs, va, vb, level);
    }
  }

  lemma NewEntry(m: Memory, root: Word, tabs: Levels, t: Word, i: Word, e: Word, j: Word, at: nat, vb: Word)
    requires Shape(m, root, tabs) && CanHang(m, root, tabs, t, i, e) && 1 <= at <= 4 && j == Index(at, vb)
    ensures !Present(Rd(Wr(m, SlotAddr(t, i), e), SlotAddr(Base(e), j)))
  {
    IndexBound(at, vb);
    HangFresh(m, root, tabs, t, i, e);
    ShapeAligned(m, root, tabs);
    BaseAligned(e);
    ZeroIsAbsent(m, Base(e), j);
    ZeroIsNotPresent();
    hide Index, SlotAddr, Rd, Wr, LevelOf, Aligned, ValidIndex, ZeroTable, Below, Present, Base, Leads, OneParent;
    SlotStore(m, t, i, e, Base(e), j);
  }

  lemma HangKeepsOpen(m: Memory, root: Word, tabs: Levels, va: Word, e: Word, level: nat)
    requires Shape(m, root, tabs) && Outside510(va) && 2 <= level <= 4 && TableAt(m, root, va, level).Some?
    requires CanHang(m, root, tabs, TableAt(m, root, va, level).value, Index(level, va), e)
    requires Open(m, root) && (UserAddr(va) ==> UserBit(e) && Writable(e))
    ensures Open(Wr(m, SlotAddr(TableAt(m, root, va, level).value, Index(level, va)), e), root)
  {
    hide UserAddr, Outside510, Shape, CanHang, TableAt, Index, SlotAddr, Wr, UserBit, Writable, OpenAt;
    forall vb, at: nat | UserAddr(vb) && 2 <= at <= 4
      ensures OpenAt(Wr(m, SlotAddr(TableAt(m, root, va, level).value, Index(level, va)), e), root, vb, at)
    {
      assert OpenAt(m, root, vb, at);
      HangOpenAt(m, root, tabs, va, e, level, vb, at);
    }
  }

  lemma LeafStoreOpenAt(m: Memory, root: Word, tabs: Levels, t: Word, i: Word, x: Word, vb: Word, at: nat)
    requires Shape(m, root, tabs) && LevelOf(tabs, t) == 1 && ValidIndex(i)
    requires UserAddr(vb) && 2 <= at <= 4 && OpenAt(m, root, vb, at)
    ensures OpenAt(Wr(m, SlotAddr(t, i), x), root, vb, at)
  {
    var m' := Wr(m, SlotAddr(t, i), x);
    UserIsOutside(vb);
    StoreKeepsUpper(m, root, tabs, t, i, x, vb, at);
    WalkStaysInside(m, root, tabs, vb, at);
    IndexBound(at, vb);
    ShapeAligned(m, root, tabs);
    SlotIs(m, root, vb, at);
    SlotIs(m', root, vb, at);
    hide UserAddr, Outside510, Shape, TableAt, Index, SlotAddr, Rd, Wr, Present, UserBit, Writable, SlotOf, LevelOf,
      Aligned, ValidIndex;
    if TableAt(m, root, vb, at).Some? {
      SlotStore(m, t, i, x, TableAt(m, root, vb, at).value, Index(at, vb));
    }
  }

  /** Leaves are below the levels in question. */
  lemma LeafStoreKeepsOpen(m: Memory, root: Word, tabs: Levels, t: Word, i: Word, x: Word)
    requires Shape(m, root, tabs) && LevelOf(tabs, t) == 1 && ValidIndex(i) && Open(m, root)
    ensures Open(Wr(m, SlotAddr(t, i), x), root)
  {
    hide UserAddr, Shape, LevelOf, ValidIndex, SlotAddr, Wr, OpenAt;
    forall vb, at: nat | UserAddr(vb) && 2 <= at <= 4
      ensures OpenAt(Wr(m, SlotAddr(t, i), x), root, vb, at)
    {
      assert OpenAt(m, root, vb, at);
      LeafStoreOpenAt(m, root, tabs, t, i, x, vb, at);
    }
  }

  /** A cleared root has nothing to close. */
  lemma ZeroRootIsOpen(m: Memory, root: Word)
    requires ZeroTable(m, root)
    ensures Open(m, root)
  {
    hide UserAddr, Index, UserBit, Writable;
    forall va, at: nat | UserAddr(va) && 2 <= at <= 4
      ensures OpenAt(m, root, va, at)
    {
      ZeroRootWalk(m, root, va, at);
    }
  }

  lemma ZeroRootWalk(m: Memory, root: Word, va: Word, at: nat)
    requires ZeroTable(m, root) && 2 <= at <= 4
    ensures OpenAt(m, root, va, at)
  {
    IndexBound(4, va);
    ZeroIsAbsent(m, root, Index(4, va));
    ZeroIsNotPresent();
    SlotIs(m, root, va, at);
    TableStep(m, root, va, 3);
    TableStep(m, root, va, 2);
    hide ZeroTable, Index, SlotAddr, Rd, Present, Below, UserBit, Writable, SlotOf, ValidIndex;
  }
}
