/** Where the two layers meet: the entries that CowModel keeps in a map are the leaf words of the page
    tables, and the kernel's bit operations on those words are the map updates of CowModel. */
module PteWords {
  import opened PageTable
  import opened AccessRights
  import RecursiveWindow
  import AddressSpace
  import Options
  import CowModel

  /** The number that the lowest bits of a word write out. */
  function Number(v: Word, bits: nat): nat {
    if bits == 0 then 0 else Low(v) + 2 * Number(Half(v), bits - 1)
  }

  function Low(v: Word): nat { if v & 1 != 0 then 1 else 0 }
  function Half(v: Word): Word { v >> 1 }

  function FrameBits(e: Word): Word { Base(e) >> 12 }

  /** The entry a leaf word stands for. */
  function Decode(e: Word): Options.Option<CowModel.Pte> {
    if Present(e) then Options.Some(CowModel.Pte(Number(FrameBits(e), 40), true, Writable(e), UserBit(e), Cow(e)))
    else Options.None
  }

  function IndexNo(level: nat, va: Word): nat { Number(Index(level, va), 9) }

  /** The virtual page number, from the four 9-bit indices. */
  function PageNo(va: Word): nat {
    ((IndexNo(4, va) * 512 + IndexNo(3, va)) * 512 + IndexNo(2, va)) * 512 + IndexNo(1, va)
  }

  /** The words of one address space hold the entries of one process. */
  ghost predicate Represents(pte: map<CowModel.Slot, CowModel.Pte>, pid: nat, m: Memory, root: Word) {
    forall va {:trigger Leaf(m, root, va)} :: UserAddr(va) ==>
        EntryAt(pte, pid, PageNo(va)) == Decode(Leaf(m, root, va))
  }

  function EntryAt(pte: map<CowModel.Slot, CowModel.Pte>, pid: nat, page: nat): Options.Option<CowModel.Pte> {
    if CowModel.Slot(pid, page) in pte then Options.Some(pte[CowModel.Slot(pid, page)]) else Options.None
  }

  // ----- page numbers -----

  /** No bit of the word lies above the lowest ones. */
  predicate Fits(v: Word, bits: nat) {
    if bits == 0 then v == 0 else Fits(Half(v), bits - 1)
  }

  lemma Halves(v: Word, w: Word)
    requires Half(v) == Half(w) && Low(v) == Low(w)
    ensures v == w
  {
  }

  lemma LowIsBit(v: Word)
    ensures Low(v) <= 1
  {
  }

  lemma {:induction false} NumberInjective(v: Word, w: Word, bits: nat)
    requires Fits(v, bits) && Fits(w, bits) && Number(v, bits) == Number(w, bits)
    ensures v == w
    decreases bits
  {
    if bits > 0 {
      hide Low, Half;
      LowIsBit(v);
      LowIsBit(w);
      NumberInjective(Half(v), Half(w), bits - 1);
      Halves(v, w);
    }
  }

  lemma IndexFits(v: Word)
    requires ValidIndex(v)
    ensures Fits(v, 9)
  {
    NineHalves(v);
    hide Half;
    var v1 := Half(v);
    var v2 := Half(v1);
    var v3 := Half(v2);
    var v4 := Half(v3);
    var v5 := Half(v4);
    var v6 := Half(v5);
    var v7 := Half(v6);
    var v8 := Half(v7);
    assert Fits(Half(v8), 0);
    assert Fits(v8, 1);
    assert Fits(v7, 2);
    assert Fits(v6, 3);
    assert Fits(v5, 4);
    assert Fits(v4, 5);
    assert Fits(v3, 6);
    assert Fits(v2, 7);
    assert Fits(v1, 8);
  }

  lemma NineHalves(v: Word)
    requires ValidIndex(v)
    ensures Half(Half(Half(Half(Half(Half(Half(Half(Half(v))))))))) == 0
  {
  }

  lemma {:induction false} Bounded(v: Word, bits: nat)
    ensures Number(v, bits) < Power(bits)
    decreases bits
  {
    if bits > 0 {
      hide Low, Half;
      LowIsBit(v);
      Bounded(Half(v), bits - 1);
    }
  }

  function Power(bits: nat): nat {
    if bits == 0 then 1 else 2 * Power(bits - 1)
  }

  lemma IndexNoIff(level: nat, va: Word, vb: Word)
    ensures IndexNo(level, va) == IndexNo(level, vb) <==> Index(level, va) == Index(level, vb)
    ensures IndexNo(level, va) < 512
  {
    IndexBound(level, va);
    IndexBound(level, vb);
    IndexFits(Index(level, va));
    IndexFits(Index(level, vb));
    Bounded(Index(level, va), 9);
    hide Index, ValidIndex, Fits, Number;
    if IndexNo(level, va) == IndexNo(level, vb) {
      NumberInjective(Index(level, va), Index(level, vb), 9);
    }
  }

  /** Two addresses have the same page number exactly if they agree at every level. */
  lemma PageNoIff(va: Word, vb: Word)
    ensures PageNo(va) == PageNo(vb) <==> SamePrefix(va, vb, 0)
  {
    IndexNoIff(4, va, vb);
    IndexNoIff(3, va, vb);
    IndexNoIff(2, va, vb);
    IndexNoIff(1, va, vb);
    IndexNoIff(1, vb, va);
    IndexNoIff(2, vb, va);
    IndexNoIff(3, vb, va);
    hide Index, IndexNo;
    SumsEqual(IndexNo(4, va), IndexNo(3, va), IndexNo(2, va), IndexNo(1, va),
              IndexNo(4, vb), IndexNo(3, vb), IndexNo(2, vb), IndexNo(1, vb));
  }

  lemma SumsEqual(a4: nat, a3: nat, a2: nat, a1: nat, b4: nat, b3: nat, b2: nat, b1: nat)
    requires a3 < 512 && a2 < 512 && a1 < 512 && b3 < 512 && b2 < 512 && b1 < 512
    ensures ((a4 * 512 + a3) * 512 + a2) * 512 + a1 == ((b4 * 512 + b3) * 512 + b2) * 512 + b1
            <==> a4 == b4 && a3 == b3 && a2 == b2 && a1 == b1
  {
  }

  lemma SumDivided(a4: nat, a3: nat, a2: nat, a1: nat)
    requires a3 < 512 && a2 < 512 && a1 < 512
    ensures var n := ((a4 * 512 + a3) * 512 + a2) * 512 + a1;
            n / 0x200 == (a4 * 512 + a3) * 512 + a2 && n / 0x4_0000 == a4 * 512 + a3 && n / 0x800_0000 == a4
  {
  }

  lemma DirIndices(va: Word)
    ensures CowModel.DirIndex(2, PageNo(va)) == (IndexNo(4, va) * 512 + IndexNo(3, va)) * 512 + IndexNo(2, va)
    ensures CowModel.DirIndex(3, PageNo(va)) == IndexNo(4, va) * 512 + IndexNo(3, va)
    ensures CowModel.DirIndex(4, PageNo(va)) == IndexNo(4, va)
  {
    IndexNoIff(3, va, va);
    IndexNoIff(2, va, va);
    IndexNoIff(1, va, va);
    hide Index, IndexNo;
    SumDivided(IndexNo(4, va), IndexNo(3, va), IndexNo(2, va), IndexNo(1, va));
  }

  lemma PrefixNumbers(va: Word, vb: Word)
    ensures SamePrefix(va, vb, 3) <==> IndexNo(4, va) == IndexNo(4, vb)
    ensures SamePrefix(va, vb, 2) <==> SamePrefix(va, vb, 3) && IndexNo(3, va) == IndexNo(3, vb)
    ensures SamePrefix(va, vb, 1) <==> SamePrefix(va, vb, 2) && IndexNo(2, va) == IndexNo(2, vb)
  {
    IndexNoIff(4, va, vb);
    IndexNoIff(3, va, vb);
    IndexNoIff(2, va, vb);
    hide Index, IndexNo;
  }

  lemma NumbersDecide(a4: nat, a3: nat, a2: nat, b4: nat, b3: nat, b2: nat)
    requires a3 < 512 && a2 < 512 && b3 < 512 && b2 < 512
    ensures a4 * 512 + a3 == b4 * 512 + b3 <==> a4 == b4 && a3 == b3
    ensures (a4 * 512 + a3) * 512 + a2 == (b4 * 512 + b3) * 512 + b2 <==> a4 == b4 && a3 == b3 && a2 == b2
  {
  }

  /** The number that the model gives a table at each level is what its pages share: it is the same for
      two pages exactly if their walks agree down to the entry of that level. */
  lemma DirIndexIff(level: nat, va: Word, vb: Word)
    requires 2 <= level <= 4
    ensures CowModel.DirIndex(level, PageNo(va)) == CowModel.DirIndex(level, PageNo(vb)) <==>
            SamePrefix(va, vb, level - 1)
  {
    hide *;
    DirIndices(va);
    DirIndices(vb);
    PrefixNumbers(va, vb);
    IndexNoIff(3, va, vb);
    IndexNoIff(2, va, vb);
    IndexNoIff(3, vb, va);
    IndexNoIff(2, vb, va);
    NumbersDecide(IndexNo(4, va), IndexNo(3, va), IndexNo(2, va), IndexNo(4, vb), IndexNo(3, vb), IndexNo(2, vb));
    assert level == 2 || level == 3 || level == 4;
  }

  /** So the number names one table: two user pages have the same table below that level exactly if they
      have the same number. */
  lemma DirNamesTable(m: Memory, root: Word, tabs: Levels, va: Word, vb: Word, level: nat)
    requires Shape(m, root, tabs) && UserAddr(va) && UserAddr(vb) && 2 <= level <= 4
    requires TableAt(m, root, va, level - 1).Some?
    ensures TableAt(m, root, va, level - 1) == TableAt(m, root, vb, level - 1) <==>
            CowModel.DirIndex(level, PageNo(va)) == CowModel.DirIndex(level, PageNo(vb))
  {
    UserIsOutside(va);
    UserIsOutside(vb);
    DirIndexIff(level, va, vb);
    hide *;
    if SamePrefix(va, vb, level - 1) {
      SamePrefixSameTable(m, root, va, vb, level - 1);
    }
    if TableAt(m, root, va, level - 1) == TableAt(m, root, vb, level - 1) {
      WalksMeet(m, root, tabs, va, vb, level - 1);
    }
  }

  // ----- words -----

  /** Fork's masks are MarkCow. */
  lemma DecodeMarkCow(e: Word)
    requires Present(e)
    ensures var x := (e & PTE_R_MASK) | PTE_COW;
            Present(x) && Decode(x) == Options.Some(CowModel.MarkCow(Decode(e).value))
  {
    MarkCowWord(e);
    hide Base, Present, Writable, UserBit, Cow, Number;
  }

  /** The handler's re-granted word is the entry BreakCow stores for an unshared frame. */
  lemma DecodeRegrant(e: Word)
    requires Present(e)
    ensures Decode(((e & CLEAR_FLAG) | (PTE_P | PTE_U | PTE_W)) & !PTE_COW) ==
            Options.Some(CowModel.Pte(Decode(e).value.frame, true, true, true, false))
  {
    RegrantWord(e);
    hide Base, Present, Writable, UserBit, Cow, Number;
  }

  /** The word for a fresh frame: all permission bits, less the write bit in a read-only region. */
  function FreshBits(frame: Word, writable: bool): Word {
    if writable then frame | (PTE_P | PTE_U | PTE_W) else frame | ((PTE_P | PTE_U | PTE_W) & !PTE_W)
  }

  /** It is the entry MapFresh stores. */
  lemma DecodeFresh(frame: Word, writable: bool)
    requires Aligned(frame)
    ensures Decode(FreshBits(frame, writable)) == Options.Some(CowModel.Pte(Number(frame >> 12, 40), true, writable,
                                                                            true, false))
  {
    FreshIs(frame, writable);
    hide *;
    DecodeIs(FreshBits(frame, writable));
  }

  lemma FreshIs(frame: Word, writable: bool)
    requires Aligned(frame)
    ensures var f := FreshBits(frame, writable);
            Base(f) == frame && Present(f) && UserBit(f) && Writable(f) == writable && !Cow(f)
  {
    FreshWord(frame);
    hide Base, Present, Writable, UserBit, Cow;
  }

  lemma DecodeIs(f: Word)
    requires Present(f) && UserBit(f) && !Cow(f)
    ensures Decode(f) == Options.Some(CowModel.Pte(Number(Base(f) >> 12, 40), true, Writable(f), true, false))
  {
    hide Base, Present, Writable, UserBit, Cow, Number;
  }

  // ----- updates -----

  /** Whatever changes the translation of one page to a present word updates the map there. */
  lemma EditUpdates(pte: map<CowModel.Slot, CowModel.Pte>, pid: nat, m: Memory, m': Memory, root: Word, va: Word,
                    x: Word)
    requires Represents(pte, pid, m, root) && Present(x) && AddressSpace.Edited(m, m', root, va, x)
    ensures Represents(pte[CowModel.Slot(pid, PageNo(va)) := Decode(x).value], pid, m', root)
  {
    hide PageNo, Leaf, Present, SamePrefix, Number, UserAddr;
    forall vb | UserAddr(vb)
      ensures EntryAt(pte[CowModel.Slot(pid, PageNo(va)) := Decode(x).value], pid, PageNo(vb)) ==
              Decode(Leaf(m', root, vb))
    {
      UserIsOutside(vb);
      PageNoIff(va, vb);
      assert EntryAt(pte, pid, PageNo(vb)) == Decode(Leaf(m, root, vb));
    }
  }

  /** self_ref_write at level PT updates the map at that page: the tables of the running process keep
      representing its entries. */
  lemma WindowUpdates(pte: map<CowModel.Slot, CowModel.Pte>, pid: nat, m: Memory, cr3: Word, tabs: Levels, va: Word,
                      x: Word)
    requires Represents(pte, pid, m, Base(cr3)) && Outside510(va) && Present(x)
    requires RecursiveWindow.SelfReferenced(m, Base(cr3)) && Shape(m, Base(cr3), tabs)
    requires Walk(m, cr3, RecursiveWindow.WindowAddr(1, va)).Some?
    ensures var m' := Wr(m, Walk(m, cr3, RecursiveWindow.WindowAddr(1, va)).value, x);
            Represents(pte[CowModel.Slot(pid, PageNo(va)) := Decode(x).value], pid, m', Base(cr3))
  {
    hide *;
    var m' := Wr(m, Walk(m, cr3, RecursiveWindow.WindowAddr(1, va)).value, x);
    forall vb | Outside510(vb)
      ensures Leaf(m', Base(cr3), vb) == if SamePrefix(va, vb, 0) then x else Leaf(m, Base(cr3), vb)
    {
      RecursiveWindow.WindowWriteRefines(m, cr3, tabs, va, x, vb);
    }
    EditedIs(m, m', Base(cr3), va, x);
    EditUpdates(pte, pid, m, m', Base(cr3), va, x);
  }

  lemma EditedIs(m: Memory, m': Memory, root: Word, va: Word, x: Word)
    requires forall vb :: Outside510(vb) ==>
               Leaf(m', root, vb) == if SamePrefix(va, vb, 0) then x else Leaf(m, root, vb)
    ensures AddressSpace.Edited(m, m', root, va, x)
  {
    hide Leaf, SamePrefix, Outside510;
  }

  /** A new empty table hung through the window leaves every entry where it was. */
  lemma WindowHangRepresents(pte: map<CowModel.Slot, CowModel.Pte>, pid: nat, m: Memory, cr3: Word, tabs: Levels,
                             va: Word, e: Word, level: nat)
    requires Represents(pte, pid, m, Base(cr3)) && Outside510(va) && 2 <= level <= 4
    requires RecursiveWindow.SelfReferenced(m, Base(cr3)) && Shape(m, Base(cr3), tabs)
    requires Walk(m, cr3, RecursiveWindow.WindowAddr(level, va)).Some?
    requires TableAt(m, Base(cr3), va, level).Some? && TableAt(m, Base(cr3), va, level - 1).None?
    requires Present(e) && LevelOf(tabs, Base(e)) == 0 && ZeroTable(m, Base(e))
    ensures Represents(pte, pid, Wr(m, Walk(m, cr3, RecursiveWindow.WindowAddr(level, va)).value, e), Base(cr3))
  {
    hide PageNo, Leaf, Present, Base, Walk, Wr, Shape, TableAt, ZeroTable, LevelOf, Outside510, UserAddr, Decode,
      EntryAt,
      RecursiveWindow.WindowAddr, RecursiveWindow.SelfReferenced;
    var m' := Wr(m, Walk(m, cr3, RecursiveWindow.WindowAddr(level, va)).value, e);
    forall vb | UserAddr(vb)
      ensures EntryAt(pte, pid, PageNo(vb)) == Decode(Leaf(m', Base(cr3), vb))
    {
      UserIsOutside(vb);
      RecursiveWindow.WindowHangsTable(m, cr3, tabs, va, e, level, vb);
      assert EntryAt(pte, pid, PageNo(vb)) == Decode(Leaf(m, Base(cr3), vb));
    }
  }

  /** Another address space's edits do not change what the tables represent. */
  lemma OtherSpaceRepresents(pte: map<CowModel.Slot, CowModel.Pte>, pid: nat, m: Memory, m': Memory, root: Word,
                             tabs: Levels, other: Levels)
    requires Represents(pte, pid, m, root) && Shape(m, root, tabs)
    requires AddressSpace.SameElsewhere(m, m', other) && AddressSpace.Apart(other, tabs)
    ensures Represents(pte, pid, m', root) && Shape(m', root, tabs)
  {
    ShapeAligned(m, root, tabs);
    hide PageNo, Leaf, Shape, Outside510, UserAddr, Decode, EntryAt, AddressSpace.SameElsewhere, AddressSpace.Apart,
      AddressSpace.AgreeOnTables;
    AddressSpace.OtherSpaceAgrees(m, m', other, root, tabs);
    AddressSpace.AgreeKeepsShape(m, m', root, tabs);
    forall va | UserAddr(va)
      ensures EntryAt(pte, pid, PageNo(va)) == Decode(Leaf(m', root, va))
    {
      UserIsOutside(va);
      AddressSpace.AgreeKeepsLeaf(m, m', root, tabs, va);
      assert EntryAt(pte, pid, PageNo(va)) == Decode(Leaf(m, root, va));
    }
  }

  lemma LeafSlotFacts(m: Memory, root: Word, tabs: Levels, va: Word, x: Word)
    requires Shape(m, root, tabs) && Outside510(va) && SlotOf(m, root, va, 1).Some?
    ensures var m' := Wr(m, SlotOf(m, root, va, 1).value, x);
            Shape(m', root, tabs) && AddressSpace.Edited(m, m', root, va, x) && AddressSpace.SameElsewhere(m, m', tabs)
  {
    AddressSpace.StepRefl(m, root, tabs);
    TableOfSlot(m, root, va);
    hide *;
    AddressSpace.LeafStoreEdits(m, m, root, tabs, tabs, va, x);
  }

  lemma TableOfSlot(m: Memory, root: Word, va: Word)
    requires SlotOf(m, root, va, 1).Some?
    ensures TableAt(m, root, va, 1).Some?
    ensures SlotOf(m, root, va, 1).value == SlotAddr(TableAt(m, root, va, 1).value, Index(1, va))
  {
    hide TableAt, SlotAddr, Index;
  }

  lemma ApartBoth(tabs: Levels, other: Levels)
    requires AddressSpace.Apart(tabs, other)
    ensures AddressSpace.Apart(other, tabs)
  {
    hide LevelOf;
  }

  lemma ForkStores(s: CowModel.State, child: nat, page: nat)
    requires CowModel.FramesInRange(s) && child != s.cur && CowModel.Slot(s.cur, page) in s.pte
    ensures var k, c := CowModel.Slot(s.cur, page), CowModel.Slot(child, page);
            var e := CowModel.MarkCow(s.pte[k]);
            && k != c && CowModel.ForkPage(s, child, page).pte == s.pte[k := e][c := e]
            && s.pte[k := e][c := e] == s.pte[c := e][k := e]
            && child == c.pid && s.cur == k.pid
  {
  }

  lemma LeafIsEntry(pte: map<CowModel.Slot, CowModel.Pte>, pid: nat, m: Memory, root: Word, va: Word)
    requires Represents(pte, pid, m, root) && UserAddr(va) && CowModel.Slot(pid, PageNo(va)) in pte
    ensures Present(Leaf(m, root, va)) && Decode(Leaf(m, root, va)) == Options.Some(pte[CowModel.Slot(pid, PageNo(va))])
  {
    hide PageNo, Leaf, Present, UserAddr;
    assert EntryAt(pte, pid, PageNo(va)) == Decode(Leaf(m, root, va));
  }
}
