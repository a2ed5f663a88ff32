/** All address spaces in one physical memory, over whole runs: every store the kernel makes into page
    tables, and every store elsewhere, keeps the words the entries that CowModel has in its map. */
module WordRuns {
  import opened PageTable
  import opened AccessRights
  import opened RecursiveWindow
  import opened PteWords
  import AddressSpace
  import Addresses
  import Options
  import CowModel
  import CowSafety
  import Elf

  type Entries = map<CowModel.Slot, CowModel.Pte>

  /** The tables of a process; live says that slot 510 of the root has been filled. */
  datatype Space = Space(root: Word, tabs: Levels, live: bool)

  ghost predicate SpaceOk(pte: Entries, m: Memory, pid: nat, sp: Space) {
    && Represents(pte, pid, m, sp.root) && Shape(m, sp.root, sp.tabs)
    && (sp.live ==> SelfReferenced(m, sp.root)) && Open(m, sp.root)
  }

  /** Every process's tables represent its entries and let user accesses through above the leaves, and no
      page is a table of two processes. */
  ghost predicate Holds(pte: Entries, m: Memory, spaces: map<nat, Space>) {
    && (forall p {:trigger spaces[p]} :: p in spaces ==> SpaceOk(pte, m, p, spaces[p]))
    && (forall p, q {:trigger spaces[p], spaces[q]} :: p in spaces && q in spaces && p != q ==>
          AddressSpace.Apart(spaces[p].tabs, spaces[q].tabs))
  }

  // ----- the stores -----

  /** Store is self_ref_write at level PT and Link at an upper level with a new frame's word, both for a
      process whose tables cr3 names; Map is map_virmem_to_phymem, for the process global_PML4 names; Start
      clears a new root; Drop forgets a reaped process's tables; Data is a store to a page that is no table. */
  datatype Edit =
    | Store(pid: nat, va: Word, x: Word)
    | Link(pid: nat, va: Word, level: nat, frame: Word)
    | Map(pid: nat, va: Word, x: Word, tabs: Levels)
    | Start(pid: nat, root: Word)
    | Drop(pid: nat)
    | Data(a: Word, x: Word)

  ghost predicate FreshTable(spaces: map<nat, Space>, t: Word) {
    forall q {:trigger spaces[q]} :: q in spaces ==> LevelOf(spaces[q].tabs, t) == 0
  }

  ghost predicate ApartFromOthers(spaces: map<nat, Space>, pid: nat, tabs: Levels) {
    forall q {:trigger spaces[q]} :: q in spaces && q != pid ==> AddressSpace.Apart(tabs, spaces[q].tabs)
  }

  /** One store as the code makes it, from memory m to memory m'. */
  ghost predicate Makes(pte: Entries, m: Memory, spaces: map<nat, Space>, e: Edit, m': Memory) {
    match e
    case Store(pid, va, x) =>
      && pid in spaces && spaces[pid].live && UserAddr(va) && Present(x)
      && Walk(m, spaces[pid].root, WindowAddr(1, va)).Some?
      && m' == Wr(m, Walk(m, spaces[pid].root, WindowAddr(1, va)).value, x)
    case Link(pid, va, level, frame) =>
      && pid in spaces && spaces[pid].live && UserAddr(va) && 2 <= level <= 4 && Aligned(frame)
      && ZeroTable(m, frame) && FreshTable(spaces, frame)
      && TableAt(m, spaces[pid].root, va, level).Some? && TableAt(m, spaces[pid].root, va, level - 1).None?
      && Walk(m, spaces[pid].root, WindowAddr(level, va)).Some?
      && m' == Wr(m, Walk(m, spaces[pid].root, WindowAddr(level, va)).value, FreshBits(frame, true))
    case Map(pid, va, x, tabs) =>
      && pid in spaces && Outside510(va) && (UserAddr(va) ==> Present(x))
      && var root := spaces[pid].root;
         && AddressSpace.Edited(m, m', root, va, x) && Shape(m', root, tabs)
         && AddressSpace.SameElsewhere(m, m', tabs) && ApartFromOthers(spaces, pid, tabs)
         && Rd(m', SlotAddr(root, SELF_INDEX)) == SelfWord(root)
         && (Open(m, root) ==> Open(m', root))
    case Start(pid, root) =>
      && pid !in spaces && (forall k {:trigger k in pte} :: k in pte ==> k.pid != pid)
      && Aligned(root) && ZeroTable(m', root) && FreshTable(spaces, root)
      && AddressSpace.SameElsewhere(m, m', map[Phys(root) := 4])
    case Drop(pid) => m' == m
    case Data(a, x) => FreshTable(spaces, Base(a)) && m' == Wr(m, a, x)
  }

  /** The tables after a Link. */
  ghost function Linked(m: Memory, sp: Space, va: Word, level: nat, e: Word): Space
    requires 1 <= level <= 4
  {
    var t := TableAt(m, sp.root, va, level);
    if t.Some? && LevelOf(sp.tabs, t.value) > 0 then sp.(tabs := Hang(sp.tabs, t.value, Base(e))) else sp
  }

  ghost function SpacesAfter(m: Memory, spaces: map<nat, Space>, e: Edit): map<nat, Space> {
    match e
    case Link(pid, va, level, frame) =>
      if pid in spaces && 1 <= level <= 4 then spaces[pid := Linked(m, spaces[pid], va, level, FreshBits(frame, true))]
      else spaces
    case Map(pid, _, _, tabs) => if pid in spaces then spaces[pid := Space(spaces[pid].root, tabs, true)] else spaces
    case Start(pid, root) => spaces[pid := Space(root, map[Phys(root) := 4], false)]
    case Drop(pid) => spaces - {pid}
    case _ => spaces
  }

  /** What the store means for the entries. */
  function EntriesAfter(pte: Entries, e: Edit): Entries {
    match e
    case Store(pid, va, x) => Entered(pte, pid, va, x)
    case Map(pid, va, x, _) => if UserAddr(va) then Entered(pte, pid, va, x) else pte
    case Drop(pid) => CowModel.EntriesExcept(pte, pid)
    case _ => pte
  }

  function Entered(pte: Entries, pid: nat, va: Word, x: Word): Entries {
    if Decode(x).Some? then pte[CowModel.Slot(pid, PageNo(va)) := Decode(x).value] else pte
  }

  // ----- one store keeps every address space -----

  ghost predicate SameFor(pte: Entries, pte': Entries, pid: nat) {
    forall page {:trigger EntryAt(pte', pid, page)} :: EntryAt(pte', pid, page) == EntryAt(pte, pid, page)
  }

  /** Stores into one set of tables leave the others' processes alone. */
  lemma OtherKept(pte: Entries, pte': Entries, m: Memory, m': Memory, q: nat, sp: Space, tabs: Levels)
    requires SpaceOk(pte, m, q, sp) && AddressSpace.SameElsewhere(m, m', tabs) && AddressSpace.Apart(tabs, sp.tabs)
    requires SameFor(pte, pte', q)
    ensures SpaceOk(pte', m', q, sp)
  {
    ShapeAligned(m, sp.root, sp.tabs);
    hide *;
    SpaceParts(pte, m, q, sp);
    OtherSpaceRepresents(pte, q, m, m', sp.root, sp.tabs, tabs);
    AddressSpace.OtherSpaceAgrees(m, m', tabs, sp.root, sp.tabs);
    AddressSpace.AgreeKeepsOpen(m, m', sp.root, sp.tabs);
    if sp.live {
      SelfKept(m, m', sp.root);
    }
    SameEntriesRepresent(pte, pte', q, m', sp.root);
    SpaceParts(pte', m', q, sp);
  }

  lemma SpaceParts(pte: Entries, m: Memory, pid: nat, sp: Space)
    ensures SpaceOk(pte, m, pid, sp) <==>
            && Represents(pte, pid, m, sp.root) && Shape(m, sp.root, sp.tabs)
            && (sp.live ==> SelfReferenced(m, sp.root)) && Open(m, sp.root)
  {
    hide Represents, Shape, SelfReferenced, Open;
  }

  lemma SelfKept(m: Memory, m': Memory, root: Word)
    requires SelfReferenced(m, root) && Rd(m', SlotAddr(root, SELF_INDEX)) == Rd(m, SlotAddr(root, SELF_INDEX))
    ensures SelfReferenced(m', root)
  {
    hide SlotAddr, Present, Base, Rd;
  }

  lemma SameEntriesRepresent(pte: Entries, pte': Entries, pid: nat, m: Memory, root: Word)
    requires Represents(pte, pid, m, root) && SameFor(pte, pte', pid)
    ensures Represents(pte', pid, m, root)
  {
    hide Leaf, Decode, PageNo, UserAddr, EntryAt;
    forall va | UserAddr(va)
      ensures EntryAt(pte', pid, PageNo(va)) == Decode(Leaf(m, root, va))
    {
      assert EntryAt(pte, pid, PageNo(va)) == Decode(Leaf(m, root, va));
    }
  }

  /** A change to one process's tables: that process is settled separately. */
  lemma OneSpaceChanges(pte: Entries, pte': Entries, m: Memory, m': Memory, spaces: map<nat, Space>, pid: nat,
                        sp: Space)
    requires Holds(pte, m, spaces) && SpaceOk(pte', m', pid, sp)
    requires AddressSpace.SameElsewhere(m, m', sp.tabs) && ApartFromOthers(spaces, pid, sp.tabs)
    requires forall q: nat {:trigger SameFor(pte, pte', q)} :: q != pid ==> SameFor(pte, pte', q)
    ensures Holds(pte', m', spaces[pid := sp])
  {
    hide SpaceOk, AddressSpace.SameElsewhere, SameFor, AddressSpace.Apart;
    var after := spaces[pid := sp];
    forall q | q in after
      ensures SpaceOk(pte', m', q, after[q])
    {
      if q != pid {
        assert SameFor(pte, pte', q) && after[q] == spaces[q];
        OtherKept(pte, pte', m, m', q, spaces[q], sp.tabs);
      }
    }
    forall p, q | p in after && q in after && p != q
      ensures AddressSpace.Apart(after[p].tabs, after[q].tabs)
    {
      if q == pid {
        assert after[p] == spaces[p];
        ApartBoth(sp.tabs, spaces[p].tabs);
      } else if p == pid {
        assert after[q] == spaces[q];
      } else {
        assert after[p] == spaces[p] && after[q] == spaces[q];
      }
    }
  }

  lemma SetForOne(pte: Entries, pid: nat, va: Word, x: Word)
    ensures forall q: nat {:trigger SameFor(pte, Entered(pte, pid, va, x), q)} :: q != pid ==>
              SameFor(pte, Entered(pte, pid, va, x), q)
    ensures forall q: nat {:trigger SameFor(pte, pte, q)} :: SameFor(pte, pte, q)
  {
    hide Decode, PageNo;
  }

  lemma RootOf(m: Memory, sp: Space)
    requires Shape(m, sp.root, sp.tabs)
    ensures Base(sp.root) == sp.root && Aligned(sp.root) && LevelOf(sp.tabs, sp.root) == 4
  {
    ShapeAligned(m, sp.root, sp.tabs);
    hide Base, LevelOf, Leads, OneParent;
  }

  lemma NoChange(m: Memory, tabs: Levels)
    ensures AddressSpace.SameElsewhere(m, m, tabs)
  {
  }

  lemma PresentDecodes(x: Word)
    requires Present(x)
    ensures Decode(x).Some?
  {
    hide Present, Number, Base;
  }

  // self_ref_write at level PT

  lemma StoreKeepsSelf(m: Memory, sp: Space, va: Word, x: Word)
    requires Shape(m, sp.root, sp.tabs) && Outside510(va) && TableAt(m, sp.root, va, 1).Some?
    requires SelfReferenced(m, sp.root)
    ensures SelfReferenced(Wr(m, SlotAddr(TableAt(m, sp.root, va, 1).value, Index(1, va)), x), sp.root)
  {
    var t := TableAt(m, sp.root, va, 1).value;
    WalkStaysInside(m, sp.root, sp.tabs, va, 1);
    IndexBound(1, va);
    AddressSpace.SelfIndexValid();
    ShapeAligned(m, sp.root, sp.tabs);
    hide Index, TableAt, SlotAddr, Rd, Wr, Below, Leads, OneParent, ValidIndex, Aligned, LevelOf;
    SlotStore(m, t, Index(1, va), x, sp.root, SELF_INDEX);
  }

  lemma StoreKeepsRights(m: Memory, sp: Space, va: Word, x: Word)
    requires Shape(m, sp.root, sp.tabs) && Outside510(va) && TableAt(m, sp.root, va, 1).Some? && Open(m, sp.root)
    ensures Open(Wr(m, SlotAddr(TableAt(m, sp.root, va, 1).value, Index(1, va)), x), sp.root)
  {
    hide *;
    WalkStaysInside(m, sp.root, sp.tabs, va, 1);
    IndexBound(1, va);
    LeafStoreKeepsOpen(m, sp.root, sp.tabs, TableAt(m, sp.root, va, 1).value, Index(1, va), x);
  }

  lemma StoreMade(pte: Entries, m: Memory, pid: nat, sp: Space, va: Word, x: Word)
    requires SpaceOk(pte, m, pid, sp) && sp.live && UserAddr(va) && Present(x)
    requires Walk(m, sp.root, WindowAddr(1, va)).Some?
    ensures var m' := Wr(m, Walk(m, sp.root, WindowAddr(1, va)).value, x);
            SpaceOk(Entered(pte, pid, va, x), m', pid, sp) && AddressSpace.SameElsewhere(m, m', sp.tabs)
  {
    hide *;
    SpaceParts(pte, m, pid, sp);
    RootOf(m, sp);
    UserIsOutside(va);
    WindowWalk(m, sp.root, va, 1);
    LeafSlotFacts(m, sp.root, sp.tabs, va, x);
    TableOfSlot(m, sp.root, va);
    StoreKeepsSelf(m, sp, va, x);
    StoreKeepsRights(m, sp, va, x);
    WindowUpdates(pte, pid, m, sp.root, sp.tabs, va, x);
    PresentDecodes(x);
    EnteredIs(pte, pid, va, x);
    SpaceParts(Entered(pte, pid, va, x), Wr(m, Walk(m, sp.root, WindowAddr(1, va)).value, x), pid, sp);
  }

  lemma EnteredIs(pte: Entries, pid: nat, va: Word, x: Word)
    requires Decode(x).Some?
    ensures Entered(pte, pid, va, x) == pte[CowModel.Slot(pid, PageNo(va)) := Decode(x).value]
  {
    hide Decode, PageNo;
  }

  lemma HeldSpace(pte: Entries, m: Memory, spaces: map<nat, Space>, pid: nat)
    requires Holds(pte, m, spaces) && pid in spaces
    ensures SpaceOk(pte, m, pid, spaces[pid])
  {
    hide SpaceOk, AddressSpace.Apart;
  }

  lemma StoreKeeps(pte: Entries, m: Memory, spaces: map<nat, Space>, pid: nat, va: Word, x: Word, m': Memory)
    requires Holds(pte, m, spaces) && Makes(pte, m, spaces, Store(pid, va, x), m')
    ensures Holds(Entered(pte, pid, va, x), m', spaces)
  {
    var sp := spaces[pid];
    hide UserAddr, Present, Walk, Wr, WindowAddr, SpaceOk, Entered, SameFor, Holds, ApartFromOthers,
      AddressSpace.SameElsewhere;
    assert SpaceOk(pte, m, pid, sp) by {
      HeldSpace(pte, m, spaces, pid);
    }
    StoreMade(pte, m, pid, sp, va, x);
    SetForOne(pte, pid, va, x);
    Others(pte, m, spaces, pid);
    OneSpaceChanges(pte, Entered(pte, pid, va, x), m, m', spaces, pid, sp);
    SameSpaces(spaces, pid);
  }

  lemma SameSpaces(spaces: map<nat, Space>, pid: nat)
    requires pid in spaces
    ensures spaces[pid := spaces[pid]] == spaces
  {
  }

  lemma Others(pte: Entries, m: Memory, spaces: map<nat, Space>, pid: nat)
    requires Holds(pte, m, spaces) && pid in spaces
    ensures ApartFromOthers(spaces, pid, spaces[pid].tabs)
  {
    hide SpaceOk, AddressSpace.Apart;
  }

  // self_ref_write at an upper level

  lemma LinkKeepsSelf(m: Memory, sp: Space, t: Word, i: Word, e: Word)
    requires Shape(m, sp.root, sp.tabs) && Inner(sp.root, sp.tabs, t, i) && SelfReferenced(m, sp.root)
    ensures SelfReferenced(Wr(m, SlotAddr(t, i), e), sp.root)
  {
    AddressSpace.SelfIndexValid();
    ShapeAligned(m, sp.root, sp.tabs);
    hide SlotAddr, Rd, Wr, Below, Leads, OneParent, ValidIndex, Aligned, LevelOf;
    SlotStore(m, t, i, e, sp.root, SELF_INDEX);
  }

  lemma SlotAtLevel(m: Memory, root: Word, va: Word, level: nat)
    requires 1 <= level <= 4 && TableAt(m, root, va, level).Some?
    ensures SlotOf(m, root, va, level) == PageTable.Some(SlotAddr(TableAt(m, root, va, level).value, Index(level, va)))
  {
    hide TableAt, SlotAddr, Index;
  }

  lemma LinkElsewhere(m: Memory, sp: Space, t: Word, i: Word, e: Word)
    requires Shape(m, sp.root, sp.tabs) && Inner(sp.root, sp.tabs, t, i)
    ensures LevelOf(sp.tabs, t) > 0
    ensures AddressSpace.SameElsewhere(m, Wr(m, SlotAddr(t, i), e), Hang(sp.tabs, t, Base(e)))
  {
    ShapeAligned(m, sp.root, sp.tabs);
    hide SlotAddr, Rd, Wr, Below, Leads, OneParent, ValidIndex, Aligned, LevelOf, Hang, Base;
    HangLevels(sp.tabs, t, Base(e), t);
    NoChange(m, Hang(sp.tabs, t, Base(e)));
    AddressSpace.LeafStoreElsewhere(m, m, Hang(sp.tabs, t, Base(e)), t, i, e);
  }

  lemma LinkKeepsRights(m: Memory, sp: Space, va: Word, level: nat, e: Word)
    requires Shape(m, sp.root, sp.tabs) && Outside510(va) && 2 <= level <= 4 && Open(m, sp.root)
    requires TableAt(m, sp.root, va, level).Some? && TableAt(m, sp.root, va, level - 1).None?
    requires Present(e) && UserBit(e) && Writable(e) && LevelOf(sp.tabs, Base(e)) == 0 && ZeroTable(m, Base(e))
    ensures Open(Wr(m, SlotAddr(TableAt(m, sp.root, va, level).value, Index(level, va)), e), sp.root)
  {
    TableStep(m, sp.root, va, level - 1);
    hide *;
    InnerOnWalk(m, sp.root, sp.tabs, va, level);
    HangAllowed(m, sp, TableAt(m, sp.root, va, level).value, Index(level, va), e);
    HangKeepsOpen(m, sp.root, sp.tabs, va, e, level);
  }

  lemma HangAllowed(m: Memory, sp: Space, t: Word, i: Word, e: Word)
    requires Inner(sp.root, sp.tabs, t, i) && Below(m, t, i).None?
    requires Present(e) && LevelOf(sp.tabs, Base(e)) == 0 && ZeroTable(m, Base(e))
    ensures CanHang(m, sp.root, sp.tabs, t, i, e)
  {
    hide Below, Present, Base, ZeroTable, LevelOf, Inner;
  }

  lemma LinkMade(pte: Entries, m: Memory, pid: nat, sp: Space, va: Word, level: nat, e: Word)
    requires SpaceOk(pte, m, pid, sp) && sp.live && UserAddr(va) && 2 <= level <= 4 && Present(e)
    requires UserBit(e) && Writable(e)
    requires ZeroTable(m, Base(e)) && LevelOf(sp.tabs, Base(e)) == 0
    requires TableAt(m, sp.root, va, level).Some? && TableAt(m, sp.root, va, level - 1).None?
    requires Walk(m, sp.root, WindowAddr(level, va)).Some?
    ensures var m', sp' := Wr(m, Walk(m, sp.root, WindowAddr(level, va)).value, e), Linked(m, sp, va, level, e);
            SpaceOk(pte, m', pid, sp') && AddressSpace.SameElsewhere(m, m', sp'.tabs)
    ensures LevelOf(sp.tabs, TableAt(m, sp.root, va, level).value) > 0
  {
    hide *;
    SpaceParts(pte, m, pid, sp);
    RootOf(m, sp);
    UserIsOutside(va);
    WindowWalk(m, sp.root, va, level);
    SlotAtLevel(m, sp.root, va, level);
    var t, i := TableAt(m, sp.root, va, level).value, Index(level, va);
    InnerOnWalk(m, sp.root, sp.tabs, va, level);
    LinkKeepsSelf(m, sp, t, i, e);
    LinkElsewhere(m, sp, t, i, e);
    LinkKeepsRights(m, sp, va, level, e);
    WindowHangsTable(m, sp.root, sp.tabs, va, e, level, va);
    WindowHangRepresents(pte, pid, m, sp.root, sp.tabs, va, e, level);
    LinkedIs(m, sp, va, level, e);
    SpaceParts(pte, Wr(m, Walk(m, sp.root, WindowAddr(level, va)).value, e), pid, Linked(m, sp, va, level, e));
  }

  lemma LinkedIs(m: Memory, sp: Space, va: Word, level: nat, e: Word)
    requires 1 <= level <= 4 && TableAt(m, sp.root, va, level).Some?
    requires LevelOf(sp.tabs, TableAt(m, sp.root, va, level).value) > 0
    ensures Linked(m, sp, va, level, e) ==
            Space(sp.root, Hang(sp.tabs, TableAt(m, sp.root, va, level).value, Base(e)), sp.live)
  {
    hide TableAt, LevelOf, Hang, Base;
  }

  /** A page that is no one's table may become one without meeting another address space. */
  lemma HangStaysApart(tabs: Levels, t: Word, n: Word, other: Levels)
    requires AddressSpace.Apart(tabs, other) && LevelOf(tabs, t) > 0 && LevelOf(other, n) == 0
    ensures AddressSpace.Apart(Hang(tabs, t, n), other)
  {
    hide LevelOf, Hang;
    forall u
      ensures !(LevelOf(Hang(tabs, t, n), u) > 0 && LevelOf(other, u) > 0)
    {
      HangLevels(tabs, t, n, u);
    }
  }

  lemma LinkKeeps(pte: Entries, m: Memory, spaces: map<nat, Space>, pid: nat, va: Word, level: nat, frame: Word,
                  m': Memory)
    requires Holds(pte, m, spaces) && Makes(pte, m, spaces, Link(pid, va, level, frame), m')
    ensures Holds(pte, m', SpacesAfter(m, spaces, Link(pid, va, level, frame)))
  {
    var sp, e := spaces[pid], FreshBits(frame, true);
    FreshIs(frame, true);
    var sp' := Linked(m, sp, va, level, e);
    hide UserAddr, Present, UserBit, Writable, Cow, Walk, Wr, WindowAddr, SpaceOk, Base, TableAt, ZeroTable, LevelOf,
      AddressSpace.Apart, Hang, SameFor, AddressSpace.SameElsewhere, Entered, FreshBits, Aligned, Linked;
    LinkMade(pte, m, pid, sp, va, level, e);
    LinkedIs(m, sp, va, level, e);
    SetForOne(pte, pid, va, e);
    Others(pte, m, spaces, pid);
    forall q | q in spaces && q != pid
      ensures AddressSpace.Apart(sp'.tabs, spaces[q].tabs)
    {
      HangStaysApart(sp.tabs, TableAt(m, sp.root, va, level).value, Base(e), spaces[q].tabs);
    }
    OneSpaceChanges(pte, pte, m, m', spaces, pid, sp');
  }

  // map_virmem_to_phymem

  /** An edit of a kernel address concerns no entry of the process. */
  lemma KernelEditRepresents(pte: Entries, pid: nat, m: Memory, m': Memory, root: Word, va: Word, x: Word)
    requires Represents(pte, pid, m, root) && AddressSpace.Edited(m, m', root, va, x) && !UserAddr(va)
    ensures Represents(pte, pid, m', root)
  {
    hide Leaf, Decode, PageNo, EntryAt, Index;
    forall vb | UserAddr(vb)
      ensures EntryAt(pte, pid, PageNo(vb)) == Decode(Leaf(m', root, vb))
    {
      UserIsOutside(vb);
      assert EntryAt(pte, pid, PageNo(vb)) == Decode(Leaf(m, root, vb));
      assert !SamePrefix(va, vb, 0);
    }
  }

  lemma MapMade(pte: Entries, m: Memory, m': Memory, pid: nat, sp: Space, va: Word, x: Word, tabs: Levels)
    requires SpaceOk(pte, m, pid, sp) && (UserAddr(va) ==> Present(x))
    requires AddressSpace.Edited(m, m', sp.root, va, x) && Shape(m', sp.root, tabs)
    requires Rd(m', SlotAddr(sp.root, SELF_INDEX)) == SelfWord(sp.root)
    requires Open(m, sp.root) ==> Open(m', sp.root)
    ensures SpaceOk(if UserAddr(va) then Entered(pte, pid, va, x) else pte, m', pid, Space(sp.root, tabs, true))
  {
    hide *;
    SpaceParts(pte, m, pid, sp);
    RootOf(m, sp);
    SelfWordRefers(m', sp.root);
    if UserAddr(va) {
      PresentDecodes(x);
      EditUpdates(pte, pid, m, m', sp.root, va, x);
      EnteredIs(pte, pid, va, x);
      SpaceParts(Entered(pte, pid, va, x), m', pid, Space(sp.root, tabs, true));
    } else {
      KernelEditRepresents(pte, pid, m, m', sp.root, va, x);
      SpaceParts(pte, m', pid, Space(sp.root, tabs, true));
    }
  }

  lemma MapKeeps(pte: Entries, m: Memory, spaces: map<nat, Space>, pid: nat, va: Word, x: Word, tabs: Levels,
                 m': Memory)
    requires Holds(pte, m, spaces) && Makes(pte, m, spaces, Map(pid, va, x, tabs), m')
    ensures Holds(EntriesAfter(pte, Map(pid, va, x, tabs)), m', SpacesAfter(m, spaces, Map(pid, va, x, tabs)))
  {
    var sp := spaces[pid];
    hide UserAddr, Present, SpaceOk, Shape, AddressSpace.Apart, AddressSpace.Edited, AddressSpace.SameElsewhere, Rd,
      SlotAddr, Entered, SelfWord, Outside510, Open;
    MapMade(pte, m, m', pid, sp, va, x, tabs);
    SetForOne(pte, pid, va, x);
    OneSpaceChanges(pte, EntriesAfter(pte, Map(pid, va, x, tabs)), m, m', spaces, pid, Space(sp.root, tabs, true));
  }

  /** What map_virmem_to_phymem promises is such an edit, as long as its pool holds no one's table. */
  lemma MapVirmemMakes(pte: Entries, m: Memory, spaces: map<nat, Space>, pid: nat, va: Word, phys: Word,
                       userMap: bool, setFlags: bool, tabs: Levels, pool: seq<Word>, pool': seq<Word>, m': Memory)
    requires Holds(pte, m, spaces) && pid in spaces && Outside510(va)
    requires UserAddr(va) ==> userMap && Present(AddressSpace.LeafWord(phys, setFlags, userMap))
    requires PoolIsFresh(spaces, pool)
    requires AddressSpace.VirmemMapped(m, m', spaces[pid].root, spaces[pid].tabs, tabs, pool, pool', va, phys, userMap,
                                       setFlags)
    ensures Makes(pte, m, spaces, Map(pid, va, AddressSpace.LeafWord(phys, setFlags, userMap), tabs), m')
  {
    hide UserAddr, Outside510, Present, AddressSpace.Edited, Shape, AddressSpace.SameElsewhere, AddressSpace.Draws, Rd,
      SlotAddr, SelfWord, LevelOf, AddressSpace.Apart, SpaceOk, AddressSpace.LeafWord, Open;
    forall q | q in spaces && q != pid
      ensures AddressSpace.Apart(tabs, spaces[q].tabs)
    {
      forall u | u in pool
        ensures LevelOf(spaces[q].tabs, u) == 0
      {
        assert FreshTable(spaces, u);
      }
      AddressSpace.StaysApart(spaces[pid].tabs, tabs, spaces[q].tabs, pool, pool');
    }
  }

  ghost predicate PoolIsFresh(spaces: map<nat, Space>, pool: seq<Word>) {
    forall u {:trigger FreshTable(spaces, u)} :: u in pool ==> FreshTable(spaces, u)
  }

  // a new root

  lemma {:induction false} RootMapsNothing(m: Memory, root: Word, va: Word)
    requires ZeroTable(m, root)
    ensures Leaf(m, root, va) == 0
  {
    WalkUnrolled(m, root, va);
    IndexBound(4, va);
    hide Index, Below, ValidIndex, ZeroTable, TableAt;
    ZeroIsAbsent(m, root, Index(4, va));
  }

  lemma EmptyRootRepresents(pte: Entries, pid: nat, m: Memory, root: Word)
    requires ZeroTable(m, root) && forall k {:trigger k in pte} :: k in pte ==> k.pid != pid
    ensures Represents(pte, pid, m, root)
  {
    AbsentZero();
    hide ZeroTable, Leaf, PageNo, UserAddr, Present, Number, Base;
    forall va | UserAddr(va)
      ensures EntryAt(pte, pid, PageNo(va)) == Decode(Leaf(m, root, va))
    {
      RootMapsNothing(m, root, va);
    }
  }

  lemma OnlyRoot(root: Word, u: Word)
    ensures LevelOf(map[Phys(root) := 4], u) == if u == root then 4 else 0
  {
  }

  lemma StartKeeps(pte: Entries, m: Memory, spaces: map<nat, Space>, pid: nat, root: Word, m': Memory)
    requires Holds(pte, m, spaces) && Makes(pte, m, spaces, Start(pid, root), m')
    ensures Holds(pte, m', SpacesAfter(m, spaces, Start(pid, root)))
  {
    var sp := Space(root, map[Phys(root) := 4], false);
    hide Aligned, ZeroTable, SpaceOk, LevelOf, AddressSpace.SameElsewhere, SameFor, Entered;
    EmptyRootRepresents(pte, pid, m', root);
    ZeroRootIsTree(m', root);
    ZeroRootIsOpen(m', root);
    hide Represents, Shape, Open;
    SpaceParts(pte, m', pid, sp);
    SetForOne(pte, pid, 0, 0);
    forall q | q in spaces && q != pid
      ensures AddressSpace.Apart(sp.tabs, spaces[q].tabs)
    {
      forall u
        ensures !(LevelOf(sp.tabs, u) > 0 && LevelOf(spaces[q].tabs, u) > 0)
      {
        OnlyRoot(root, u);
      }
    }
    OneSpaceChanges(pte, pte, m, m', spaces, pid, sp);
  }

  // a process gone, and data

  lemma DropKeeps(pte: Entries, m: Memory, spaces: map<nat, Space>, pid: nat)
    requires Holds(pte, m, spaces)
    ensures Holds(CowModel.EntriesExcept(pte, pid), m, spaces - {pid})
  {
    hide SpaceOk, AddressSpace.Apart;
    forall q | q in spaces && q != pid
      ensures SpaceOk(CowModel.EntriesExcept(pte, pid), m, q, spaces[q])
    {
      SpaceParts(pte, m, q, spaces[q]);
      hide Represents, Shape, SelfReferenced, Open;
      assert SameFor(pte, CowModel.EntriesExcept(pte, pid), q);
      SameEntriesRepresent(pte, CowModel.EntriesExcept(pte, pid), q, m, spaces[q].root);
      SpaceParts(CowModel.EntriesExcept(pte, pid), m, q, spaces[q]);
    }
  }

  lemma DataElsewhere(m: Memory, a: Word, x: Word)
    ensures AddressSpace.SameElsewhere(m, Wr(m, a, x), map[Phys(Base(a)) := 1])
  {
    hide Base;
  }

  lemma NoTable(t: Word, tabs: Levels)
    requires LevelOf(tabs, t) == 0
    ensures AddressSpace.Apart(map[Phys(t) := 1], tabs)
  {
  }

  lemma DataKeeps(pte: Entries, m: Memory, spaces: map<nat, Space>, a: Word, x: Word)
    requires Holds(pte, m, spaces) && FreshTable(spaces, Base(a))
    ensures Holds(pte, Wr(m, a, x), spaces)
  {
    hide SpaceOk, Base, LevelOf, AddressSpace.Apart, AddressSpace.SameElsewhere, Wr, SameFor, Entered;
    DataElsewhere(m, a, x);
    SetForOne(pte, 0, 0, 0);
    forall q | q in spaces
      ensures SpaceOk(pte, Wr(m, a, x), q, spaces[q])
    {
      NoTable(Base(a), spaces[q].tabs);
      assert SameFor(pte, pte, q);
      OtherKept(pte, pte, m, Wr(m, a, x), q, spaces[q], map[Phys(Base(a)) := 1]);
    }
  }

  /** Every store keeps every process's tables the entries of CowModel, updated as the store says. */
  lemma EditKeeps(pte: Entries, m: Memory, spaces: map<nat, Space>, e: Edit, m': Memory)
    requires Holds(pte, m, spaces) && Makes(pte, m, spaces, e, m')
    ensures Holds(EntriesAfter(pte, e), m', SpacesAfter(m, spaces, e))
  {
    hide Holds;
    match e {
      case Store(pid, va, x) => StoreKeeps(pte, m, spaces, pid, va, x, m');
      case Link(pid, va, level, frame) => LinkKeeps(pte, m, spaces, pid, va, level, frame, m');
      case Map(pid, va, x, tabs) => MapKeeps(pte, m, spaces, pid, va, x, tabs, m');
      case Start(pid, root) => StartKeeps(pte, m, spaces, pid, root, m');
      case Drop(pid) => DropKeeps(pte, m, spaces, pid);
      case Data(a, x) => DataKeeps(pte, m, spaces, a, x);
    }
  }

  // ----- runs -----

  /** The stores happen one after the other, the memory after each given. */
  ghost predicate AllMade(pte: Entries, m: Memory, spaces: map<nat, Space>, edits: seq<Edit>, mems: seq<Memory>)
    decreases |edits|
  {
    |mems| == |edits| &&
    (edits == []
     || (&& Makes(pte, m, spaces, edits[0], mems[0])
         && AllMade(EntriesAfter(pte, edits[0]), mems[0], SpacesAfter(m, spaces, edits[0]), edits[1..], mems[1..])))
  }

  function AllEntries(pte: Entries, edits: seq<Edit>): Entries
    decreases |edits|
  {
    if edits == [] then pte else AllEntries(EntriesAfter(pte, edits[0]), edits[1..])
  }

  ghost function AllSpaces(m: Memory, spaces: map<nat, Space>, edits: seq<Edit>, mems: seq<Memory>): map<nat, Space>
    requires |mems| == |edits|
    decreases |edits|
  {
    if edits == [] then spaces else AllSpaces(mems[0], SpacesAfter(m, spaces, edits[0]), edits[1..], mems[1..])
  }

  /** Over every run of the kernel's stores, from any memory in which the relation holds, such as one
      without address spaces: all tables of all processes represent the entries the run has entered. */
  lemma {:induction false} RunsAreRepresented(pte: Entries, m: Memory, spaces: map<nat, Space>, edits: seq<Edit>,
                                              mems: seq<Memory>)
    requires Holds(pte, m, spaces) && AllMade(pte, m, spaces, edits, mems)
    ensures Holds(AllEntries(pte, edits), if mems == [] then m else mems[|mems| - 1],
                  AllSpaces(m, spaces, edits, mems))
    decreases |edits|
  {
    hide Holds, Makes, EntriesAfter, SpacesAfter;
    if edits != [] {
      EditKeeps(pte, m, spaces, edits[0], mems[0]);
      RunsAreRepresented(EntriesAfter(pte, edits[0]), mems[0], SpacesAfter(m, spaces, edits[0]), edits[1..], mems[1..]);
    }
  }

  lemma NothingRepresented(m: Memory)
    ensures Holds(map[], m, map[])
  {
  }

  // ----- the kernel's operations as such stores -----

  /** Where the running process has an entry, self_ref_write reaches it. */
  lemma EntryReached(pte: Entries, m: Memory, spaces: map<nat, Space>, pid: nat, va: Word)
    requires Holds(pte, m, spaces) && pid in spaces && spaces[pid].live && UserAddr(va)
    requires CowModel.Slot(pid, PageNo(va)) in pte
    ensures var e := Leaf(m, spaces[pid].root, va);
            && Present(e) && Decode(e) == Options.Some(pte[CowModel.Slot(pid, PageNo(va))])
            && Walk(m, spaces[pid].root, WindowAddr(1, va)).Some?
  {
    var sp := spaces[pid];
    assert SpaceOk(pte, m, pid, sp);
    hide *;
    SpaceParts(pte, m, pid, sp);
    RootOf(m, sp);
    LeafIsEntry(pte, pid, m, sp.root, va);
    PresentNotZero(Leaf(m, sp.root, va));
    AddressSpace.LeafNeedsSlot(m, sp.root, va);
    WindowWalk(m, sp.root, va, 1);
  }

  lemma PresentNotZero(e: Word)
    requires Present(e)
    ensures e != 0
  {
  }

  /** What self_ref_write at level PT makes of the memory. */
  function Written(m: Memory, sp: Space, va: Word, x: Word): Memory
    requires Walk(m, sp.root, WindowAddr(1, va)).Some?
  {
    Wr(m, Walk(m, sp.root, WindowAddr(1, va)).value, x)
  }

  lemma WrittenKeeps(pte: Entries, m: Memory, spaces: map<nat, Space>, pid: nat, va: Word, x: Word)
    requires Holds(pte, m, spaces) && pid in spaces && spaces[pid].live && UserAddr(va) && Present(x)
    requires Walk(m, spaces[pid].root, WindowAddr(1, va)).Some?
    ensures Decode(x).Some?
    ensures Holds(pte[CowModel.Slot(pid, PageNo(va)) := Decode(x).value], Written(m, spaces[pid], va, x), spaces)
  {
    hide Holds, Walk, WindowAddr, Wr, Present, UserAddr, Entered, Decode;
    PresentDecodes(x);
    EnteredIs(pte, pid, va, x);
    StoreKeeps(pte, m, spaces, pid, va, x, Written(m, spaces[pid], va, x));
  }

  function Regranted(e: Word): Word {
    ((e & CLEAR_FLAG) | (PTE_P | PTE_U | PTE_W)) & !PTE_COW
  }

  lemma RegrantedDecodes(e: Word)
    requires Present(e)
    ensures Present(Regranted(e))
    ensures Decode(Regranted(e)) == Options.Some(CowModel.Pte(Decode(e).value.frame, true, true, true, false))
  {
    DecodeRegrant(e);
    RegrantWord(e);
    hide Decode, Present, Base, Writable, UserBit, Cow;
  }

  lemma RegrantIs(s: CowModel.State, k: CowModel.Slot)
    requires CowModel.CanAllocate(s) && k.pid == s.cur && k in s.pte && s.pte[k].frame < |s.desc|
    requires s.desc[s.pte[k].frame].refCount == 0
    ensures CowModel.BreakCow(s, k.page).pte == s.pte[k := CowModel.Pte(s.pte[k].frame, true, true, true, false)]
  {
    hide CowModel.FirstFree;
  }

  lemma FreshIsMapped(s: CowModel.State, k: CowModel.Slot, content: CowModel.Page, writable: bool)
    requires CowModel.CanAllocate(s) && k.pid == s.cur
    ensures CowModel.MapFresh(s, k.page, content, writable).pte ==
            s.pte[k := CowModel.Pte(CowModel.NextFrame(s), true, writable, true, false)]
  {
    hide CowModel.FirstFree;
  }

  lemma FreshDecodes(w: Word, writable: bool)
    requires Aligned(w)
    ensures Present(FreshBits(w, writable))
    ensures Decode(FreshBits(w, writable)) ==
            Options.Some(CowModel.Pte(Number(w >> 12, 40), true, writable, true, false))
  {
    DecodeFresh(w, writable);
    FreshIs(w, writable);
    hide *;
  }

  /** A write to an unshared copy-on-write page: the handler's word, read from the tables and put back
      through the window, is BreakCow. */
  lemma RegrantWords(s: CowModel.State, m: Memory, spaces: map<nat, Space>, va: Word)
    requires Holds(s.pte, m, spaces) && s.cur in spaces && spaces[s.cur].live && UserAddr(va)
    requires CowModel.CanAllocate(s) && CowModel.Slot(s.cur, PageNo(va)) in s.pte
    requires var f := s.pte[CowModel.Slot(s.cur, PageNo(va))].frame; f < |s.desc| && s.desc[f].refCount == 0
    ensures var e := Leaf(m, spaces[s.cur].root, va);
            && Walk(m, spaces[s.cur].root, WindowAddr(1, va)).Some?
            && Holds(CowModel.BreakCow(s, PageNo(va)).pte, Written(m, spaces[s.cur], va, Regranted(e)), spaces)
  {
    var e, k := Leaf(m, spaces[s.cur].root, va), CowModel.Slot(s.cur, PageNo(va));
    RegrantIs(s, k);
    hide *;
    EntryReached(s.pte, m, spaces, s.cur, va);
    RegrantedDecodes(e);
    WrittenKeeps(s.pte, m, spaces, s.cur, va, Regranted(e));
  }

  /** A write to a shared one: the word for the copy's frame is BreakCow. */
  lemma CopyWords(s: CowModel.State, m: Memory, spaces: map<nat, Space>, va: Word, w: Word)
    requires Holds(s.pte, m, spaces) && s.cur in spaces && spaces[s.cur].live && UserAddr(va)
    requires CowModel.CanAllocate(s) && CowModel.Slot(s.cur, PageNo(va)) in s.pte
    requires var f := s.pte[CowModel.Slot(s.cur, PageNo(va))].frame; f < |s.desc| && s.desc[f].refCount != 0
    requires Aligned(w) && Number(w >> 12, 40) == CowModel.NextFrame(s)
    ensures Walk(m, spaces[s.cur].root, WindowAddr(1, va)).Some?
    ensures Holds(CowModel.BreakCow(s, PageNo(va)).pte, Written(m, spaces[s.cur], va, FreshBits(w, true)), spaces)
  {
    var k := CowModel.Slot(s.cur, PageNo(va));
    CopyIs(s, k);
    hide *;
    EntryReached(s.pte, m, spaces, s.cur, va);
    FreshDecodes(w, true);
    WrittenKeeps(s.pte, m, spaces, s.cur, va, FreshBits(w, true));
  }

  lemma CopyIs(s: CowModel.State, k: CowModel.Slot)
    requires CowModel.CanAllocate(s) && k.pid == s.cur && k in s.pte && s.pte[k].frame < |s.desc|
    requires s.desc[s.pte[k].frame].refCount != 0
    ensures CowModel.BreakCow(s, k.page).pte ==
            s.pte[k := CowModel.Pte(CowModel.NextFrame(s), true, true, true, false)]
  {
    hide CowModel.FirstFree;
  }

  /** Demand paging, once the tables are there: the word with all rights and, for a read-only region, the
      one without the write bit over it are MapFresh. */
  lemma DemandWords(s: CowModel.State, m: Memory, spaces: map<nat, Space>, va: Word, w: Word, writable: bool)
    requires Holds(s.pte, m, spaces) && s.cur in spaces && spaces[s.cur].live && UserAddr(va)
    requires CowModel.CanAllocate(s) && SlotOf(m, spaces[s.cur].root, va, 1).Some?
    requires Aligned(w) && Number(w >> 12, 40) == CowModel.NextFrame(s)
    ensures var sp, after := spaces[s.cur], CowModel.MapFresh(s, PageNo(va), CowModel.ZERO_PAGE, writable).pte;
            && Walk(m, sp.root, WindowAddr(1, va)).Some?
            && var m1 := Written(m, sp, va, FreshBits(w, true));
               && (writable ==> Holds(after, m1, spaces))
               && Walk(m1, sp.root, WindowAddr(1, va)).Some?
               && (!writable ==> Holds(after, Written(m1, sp, va, FreshBits(w, false)), spaces))
  {
    var sp, k := spaces[s.cur], CowModel.Slot(s.cur, PageNo(va));
    assert SpaceOk(s.pte, m, s.cur, sp);
    FreshIsMapped(s, k, CowModel.ZERO_PAGE, writable);
    hide *;
    FreshDecodes(w, true);
    FreshDecodes(w, false);
    SpaceParts(s.pte, m, s.cur, sp);
    RootOf(m, sp);
    WindowWalk(m, sp.root, va, 1);
    WrittenKeeps(s.pte, m, spaces, s.cur, va, FreshBits(w, true));
    var m1, pte1 := Written(m, sp, va, FreshBits(w, true)), s.pte[k := Decode(FreshBits(w, true)).value];
    EntryReached(pte1, m1, spaces, s.cur, va);
    if !writable {
      WrittenKeeps(pte1, m1, spaces, s.cur, va, FreshBits(w, false));
      SetTwice(s.pte, k, Decode(FreshBits(w, true)).value, Decode(FreshBits(w, false)).value);
    }
  }

  lemma SetTwice(pte: Entries, k: CowModel.Slot, e: CowModel.Pte, f: CowModel.Pte)
    ensures pte[k := e][k := f] == pte[k := f]
  {
  }

  function Marked(e: Word): Word {
    (e & PTE_R_MASK) | PTE_COW
  }

  lemma MarkedDecodes(e: Word)
    requires Present(e)
    ensures Present(Marked(e)) && Decode(Marked(e)) == Options.Some(CowModel.MarkCow(Decode(e).value))
  {
    DecodeMarkCow(e);
    hide Decode, Present;
  }

  lemma MapEnters(pte: Entries, m: Memory, spaces: map<nat, Space>, pid: nat, va: Word, x: Word, tabs: Levels,
                  m': Memory)
    requires Holds(pte, m, spaces) && Makes(pte, m, spaces, Map(pid, va, x, tabs), m') && UserAddr(va)
    requires pid in spaces && Decode(x).Some?
    ensures Holds(pte[CowModel.Slot(pid, PageNo(va)) := Decode(x).value], m',
                  spaces[pid := Space(spaces[pid].root, tabs, true)])
  {
    MapKeeps(pte, m, spaces, pid, va, x, tabs, m');
    EnteredIs(pte, pid, va, x);
    hide Holds, Makes, Entered, Decode, PageNo, UserAddr;
  }

  /** One page of fork in one physical memory: the marked word goes into the parent's tables through the
      window and then, unchanged, into the child's through map_virmem_to_phymem. What results is ForkPage,
      for these two and every other process. */
  lemma ForkWords(s: CowModel.State, child: nat, m: Memory, m2: Memory, spaces: map<nat, Space>, va: Word,
                  tabs: Levels, pool: seq<Word>, pool': seq<Word>)
    requires Holds(s.pte, m, spaces) && s.cur in spaces && spaces[s.cur].live && UserAddr(va)
    requires CowModel.FramesInRange(s) && child != s.cur && child in spaces && PoolIsFresh(spaces, pool)
    requires CowModel.Slot(s.cur, PageNo(va)) in s.pte
    requires var e := Leaf(m, spaces[s.cur].root, va);
             Walk(m, spaces[s.cur].root, WindowAddr(1, va)).Some? ==>
               AddressSpace.VirmemMapped(Written(m, spaces[s.cur], va, Marked(e)), m2, spaces[child].root,
                                         spaces[child].tabs, tabs, pool, pool', va, Marked(e), true, false)
    ensures Walk(m, spaces[s.cur].root, WindowAddr(1, va)).Some?
    ensures Holds(CowModel.ForkPage(s, child, PageNo(va)).pte, m2,
                  spaces[child := Space(spaces[child].root, tabs, true)])
  {
    var e := Leaf(m, spaces[s.cur].root, va);
    var k, x := CowModel.Slot(s.cur, PageNo(va)), Marked(e);
    ForkStores(s, child, PageNo(va));
    hide *;
    EntryReached(s.pte, m, spaces, s.cur, va);
    MarkedDecodes(e);
    UserIsOutside(va);
    AddressSpace.LeafWordBits(x, true);
    var m1, pte1 := Written(m, spaces[s.cur], va, x), s.pte[k := Decode(x).value];
    WrittenKeeps(s.pte, m, spaces, s.cur, va, x);
    MapVirmemMakes(pte1, m1, spaces, child, va, x, true, false, tabs, pool, pool', m2);
    MapEnters(pte1, m1, spaces, child, va, x, tabs, m2);
  }

  /** One page of umalloc, in the tables that global_PML4 names. */
  lemma UmallocWords(s: CowModel.State, m: Memory, m': Memory, spaces: map<nat, Space>, va: Word, w: Word,
                     tabs: Levels, pool: seq<Word>, pool': seq<Word>)
    requires Holds(s.pte, m, spaces) && s.target in spaces && UserAddr(va) && CowModel.CanAllocate(Elf.AsTarget(s))
    requires Aligned(w) && Number(w >> 12, 40) == CowModel.NextFrame(s) && PoolIsFresh(spaces, pool)
    requires AddressSpace.VirmemMapped(m, m', spaces[s.target].root, spaces[s.target].tabs, tabs, pool, pool', va, w,
                                       true, true)
    ensures Holds(Elf.MapOne(Elf.AsTarget(s), PageNo(va), CowModel.ZERO_PAGE).pte, m',
                  spaces[s.target := Space(spaces[s.target].root, tabs, true)])
  {
    var x := AddressSpace.LeafWord(w, true, true);
    FreshIsMapped(Elf.AsTarget(s), CowModel.Slot(s.target, PageNo(va)), CowModel.ZERO_PAGE, true);
    assert Elf.AsTarget(s).pte == s.pte && CowModel.NextFrame(Elf.AsTarget(s)) == CowModel.NextFrame(s);
    MapOneIs(Elf.AsTarget(s), PageNo(va));
    hide *;
    AddressSpace.LeafWordBits(w, true);
    LeafDecodes(x);
    UserIsOutside(va);
    MapVirmemMakes(s.pte, m, spaces, s.target, va, w, true, true, tabs, pool, pool', m');
    MapEnters(s.pte, m, spaces, s.target, va, x, tabs, m');
  }

  lemma LeafDecodes(x: Word)
    requires Present(x) && UserBit(x) && Writable(x) && !Cow(x)
    ensures Decode(x) == Options.Some(CowModel.Pte(Number(Base(x) >> 12, 40), true, true, true, false))
  {
    DecodeIs(x);
    hide Base, Present, UserBit, Cow, Number, Decode;
  }

  lemma MapOneIs(s: CowModel.State, page: nat)
    requires CowModel.CanAllocate(s)
    ensures Elf.MapOne(s, page, CowModel.ZERO_PAGE).pte == CowModel.MapFresh(s, page, CowModel.ZERO_PAGE, true).pte
  {
    hide CowModel.MapFresh;
  }

  // ----- the hardware's decision -----

  lemma DecodedPasses(e: Word, write: bool)
    ensures Passes(e, write) <==> Decode(e).Some? && Decode(e).value.user && (write ==> Decode(e).value.writable)
    ensures Decode(e).Some? ==> Decode(e).value.present
    ensures Decode(e).Some? <==> Present(e)
  {
    hide Present, UserBit, Writable, Cow, Number, Base;
  }

  /** In every memory a run of the kernel's stores leads to, the processor's check of all four levels grants
      a user access to a process exactly if the process's entry for the page grants it. */
  lemma HardwareDecides(pte: Entries, m: Memory, spaces: map<nat, Space>, pid: nat, va: Word, write: bool)
    requires Holds(pte, m, spaces) && pid in spaces && UserAddr(va)
    ensures var k := CowModel.Slot(pid, PageNo(va));
            UserAccess(m, spaces[pid].root, va, write) <==>
            k in pte && pte[k].user && (write ==> pte[k].writable)
  {
    var e := Leaf(m, spaces[pid].root, va);
    HeldSpace(pte, m, spaces, pid);
    EntryIsLeaf(pte, m, spaces, pid, va);
    hide *;
    SpaceParts(pte, m, pid, spaces[pid]);
    LeafDecides(m, spaces[pid].root, va, write);
    DecodedPasses(e, write);
    EntryAtIs(pte, pid, PageNo(va));
  }

  lemma EntryAtIs(pte: Entries, pid: nat, page: nat)
    ensures var k := CowModel.Slot(pid, page);
            EntryAt(pte, pid, page) == if k in pte then Options.Some(pte[k]) else Options.None
  {
  }

  lemma EntryIsLeaf(pte: Entries, m: Memory, spaces: map<nat, Space>, pid: nat, va: Word)
    requires Holds(pte, m, spaces) && pid in spaces && UserAddr(va)
    ensures EntryAt(pte, pid, PageNo(va)) == Decode(Leaf(m, spaces[pid].root, va))
  {
    HeldSpace(pte, m, spaces, pid);
    hide Holds, Leaf, Decode, PageNo, Shape, Open, SelfReferenced, UserAddr, EntryAt;
  }

  /** With an empty TLB the model's user access hits exactly if the processor grants it, and the fault it
      raises otherwise says "present" exactly if the walk reaches a present leaf. */
  lemma TryIsHardware(s: CowModel.State, m: Memory, spaces: map<nat, Space>, va: Word, a: nat, write: bool)
    requires Holds(s.pte, m, spaces) && s.cur in spaces && UserAddr(va)
    requires s.tlb == map[] && a / Addresses.PAGE_SIZE == PageNo(va)
    ensures CowModel.Try(s, a, write).Hit? <==> UserAccess(m, spaces[s.cur].root, va, write)
    ensures CowModel.Try(s, a, write).Miss? ==>
              (CowModel.Try(s, a, write).err.present <==> Present(Leaf(m, spaces[s.cur].root, va)))
  {
    var e := Leaf(m, spaces[s.cur].root, va);
    HardwareDecides(s.pte, m, spaces, s.cur, va, write);
    EntryIsLeaf(s.pte, m, spaces, s.cur, va);
    DecodedPasses(e, write);
    hide Holds, Leaf, Decode, PageNo, UserAddr, UserAccess, Present, Passes;
  }
}
