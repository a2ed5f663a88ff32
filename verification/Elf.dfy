/** load_elf: umalloc maps fresh frames over a segment's pages, then memcpy and memset fill them through
    virtual addresses without reloading cr3. What the kernel leaves is CowModel.MapImage. */
module Elf {
  import opened Addresses
  import opened Options
  import opened CowModel
  import opened CowSafety
  import opened CowKernel
  import opened CowLimits

  /** A program header: PT_LOAD, PH_TYPE_X, and the fields load_elf reads. */
  datatype Segment = Segment(load: bool, exec: bool, offset: nat, vaddr: nat, filesz: nat, memsz: nat)

  type Image = seq<(nat, Page)>

  // ----- which pages umalloc maps -----

  /** umalloc's page count, from the gap up to the next page margin. */
  function PageCount(addr: nat, size: nat): nat {
    var gap := addr / PAGE_SIZE * PAGE_SIZE + PAGE_SIZE - addr;
    if size > gap then
      1 + (size - gap) / PAGE_SIZE + (if (size - gap) % PAGE_SIZE != 0 then 1 else 0)
    else 1
  }

  /** The page holds an address in [addr, addr + size). */
  predicate Touches(addr: nat, size: nat, page: nat) {
    page * PAGE_SIZE < addr + size && addr < (page + 1) * PAGE_SIZE
  }

  predicate Covers(addr: nat, size: nat, page: nat) {
    addr / PAGE_SIZE <= page < addr / PAGE_SIZE + PageCount(addr, size)
  }

  /** umalloc maps exactly the pages that the range meets; an empty range still takes one page. */
  lemma UmallocCoversExactly(addr: nat, size: nat, page: nat)
    ensures size > 0 ==> (Covers(addr, size, page) <==> Touches(addr, size, page))
    ensures size == 0 ==> (Covers(addr, size, page) <==> page == addr / PAGE_SIZE)
  {
  }

  lemma AddressCovered(addr: nat, size: nat, a: nat)
    requires addr <= a < addr + size
    ensures Covers(addr, size, a / PAGE_SIZE)
  {
    hide Covers, PageCount;
    UmallocCoversExactly(addr, size, a / PAGE_SIZE);
  }

  // ----- contents -----

  /** The page's offset o lies among the n bytes from addr on. */
  predicate Within(addr: nat, n: nat, page: nat, o: nat) {
    addr <= page * PAGE_SIZE + o < addr + n
  }

  /** What the page holds once bytes stand at addr and everything else is untouched. */
  function Content(addr: nat, bytes: seq<Byte>, page: nat): Page {
    map o: nat | o < PAGE_SIZE && Within(addr, |bytes|, page, o) :: bytes[page * PAGE_SIZE + o - addr]
  }

  function Entry(addr: nat, bytes: seq<Byte>, i: nat): (nat, Page) {
    (addr / PAGE_SIZE + i, Content(addr, bytes, addr / PAGE_SIZE + i))
  }

  /** The count pages from addr's page on, with bytes at addr. */
  function Pages(addr: nat, count: nat, bytes: seq<Byte>): Image {
    seq(count, i requires 0 <= i < count => Entry(addr, bytes, i))
  }

  lemma NoBytes(addr: nat, page: nat)
    ensures Content(addr, [], page) == ZERO_PAGE
  {
  }

  lemma NextWithin(addr: nat, n: nat, page: nat, o: nat)
    requires o < PAGE_SIZE
    ensures Within(addr, n + 1, page, o) <==>
            Within(addr, n, page, o) || (page == (addr + n) / PAGE_SIZE && o == (addr + n) % PAGE_SIZE)
  {
  }

  // ----- MapImage -----

  predicate RoomFor(s: State, n: nat) {
    |s.desc| == |s.data| && FIRST_USER_FRAME <= |s.desc| && |FreeFrames(s.desc)| >= n
  }

  /** One round of MapImage. */
  function MapOne(s: State, page: nat, content: Page): State
    requires CanAllocate(s)
  {
    MapFresh(s, page, content, true).(dirs := WithTables(s.dirs, s.cur, page))
  }

  lemma MapOneRoom(s: State, page: nat, content: Page, n: nat)
    requires RoomFor(s, n + 1)
    ensures CanAllocate(s) && RoomFor(MapOne(s, page, content), n)
  {
    AllocationCount(s);
  }

  lemma {:induction false} MapImageConcat(s: State, a: Image, b: Image)
    requires |s.desc| == |s.data| && FIRST_USER_FRAME <= |s.desc|
    ensures var t := MapImage(s, a); |t.desc| == |t.data| && FIRST_USER_FRAME <= |t.desc|
    ensures MapImage(s, a + b) == MapImage(MapImage(s, a), b)
    ensures RoomFor(s, |a| + |b|) ==> RoomFor(MapImage(s, a), |b|)
    decreases |a|
  {
    if a == [] {
      assert a + b == b;
    } else if CanAllocate(s) {
      assert (a + b)[1..] == a[1..] + b;
      if RoomFor(s, |a| + |b|) {
        MapOneRoom(s, a[0].0, a[0].1, |a| - 1 + |b|);
      }
      MapImageConcat(MapOne(s, a[0].0, a[0].1), a[1..], b);
    } else {
      hide MapFresh;
      if RoomFor(s, |a| + |b|) {
        AllocationCount(s);
      }
    }
  }

  lemma MapImageSnoc(s: State, a: Image, page: nat, content: Page)
    requires |s.desc| == |s.data| && FIRST_USER_FRAME <= |s.desc|
    requires CanAllocate(MapImage(s, a))
    ensures MapImage(s, a + [(page, content)]) == MapOne(MapImage(s, a), page, content)
  {
    MapImageConcat(s, a, [(page, content)]);
    var t := MapImage(s, a);
    hide MapFresh, CanAllocate;
    assert MapImage(MapOne(t, page, content), []) == MapOne(t, page, content);
  }

  /** A write to a frame that is already taken commutes with mapping fresh ones. */
  lemma {:induction false} MapImageCommutes(s: State, image: Image, f: nat, content: Page)
    requires RoomFor(s, |image|) && f < |s.desc| && s.desc[f].used
    ensures var t := MapImage(s, image);
            && f < |t.data| && f < |t.desc| && t.desc[f].used
            && MapImage(s.(data := s.data[f := content]), image) == t.(data := t.data[f := content])
    decreases |image|
  {
    if image != [] {
      var page, c := image[0].0, image[0].1;
      MapOneRoom(s, page, c, |image| - 1);
      var u := s.(data := s.data[f := content]);
      OneCommutes(s, page, c, f, content);
      MapImageCommutes(MapOne(s, page, c), image[1..], f, content);
    }
  }

  lemma OneCommutes(s: State, page: nat, c: Page, f: nat, content: Page)
    requires CanAllocate(s) && f < |s.desc| && s.desc[f].used
    ensures var u, t := s.(data := s.data[f := content]), MapOne(s, page, c);
            && CanAllocate(u) && t.desc[f].used
            && MapOne(u, page, c) == t.(data := t.data[f := content])
  {
    var u, t := s.(data := s.data[f := content]), MapOne(s, page, c);
    assert NextFrame(u) == NextFrame(s) != f;
    assert MapOne(u, page, c).data == t.data[f := content];
  }

  /** No later entry of the image is for the same page. */
  ghost predicate Last(image: Image, i: nat)
    requires i < |image|
  {
    forall j {:trigger image[j]} :: i < j < |image| ==> image[j].0 != image[i].0
  }

  /** Mapping the image leaves alone every frame in use and every entry of another page. */
  ghost predicate Undisturbed(s: State, t: State, image: Image) {
    && |t.desc| == |s.desc| && |t.data| == |s.data| && |s.desc| == |s.data|
    && t.cur == s.cur && t.mms == s.mms && t.tlb == s.tlb
    && (forall f {:trigger t.data[f]} {:trigger t.desc[f]} :: 0 <= f < |s.desc| && s.desc[f].used ==>
          t.desc[f] == s.desc[f] && t.data[f] == s.data[f])
    && (forall k: Slot {:trigger t.pte[k]} {:trigger k in t.pte} :: !(k.pid == s.cur && InImage(image, k.page)) ==>
          (k in t.pte <==> k in s.pte) && (k in s.pte ==> t.pte[k] == s.pte[k]))
  }

  predicate InImage(image: Image, page: nat) {
    exists i {:trigger image[i]} :: 0 <= i < |image| && image[i].0 == page
  }

  lemma OneUndisturbed(s: State, page: nat, content: Page)
    requires CanAllocate(s)
    ensures Undisturbed(s, MapOne(s, page, content), [(page, content)])
  {
    assert InImage([(page, content)], page) by {
      assert [(page, content)][0].0 == page;
    }
  }

  lemma {:induction false} MapImageUndisturbed(s: State, image: Image)
    requires |s.desc| == |s.data| && FIRST_USER_FRAME <= |s.desc|
    ensures Undisturbed(s, MapImage(s, image), image)
    decreases |image|
  {
    if image != [] && CanAllocate(s) {
      var page, content := image[0].0, image[0].1;
      OneUndisturbed(s, page, content);
      MapImageUndisturbed(MapOne(s, page, content), image[1..]);
      UndisturbedCons(s, MapOne(s, page, content), MapImage(s, image), image);
    }
  }

  lemma UndisturbedCons(s: State, m: State, t: State, image: Image)
    requires image != [] && Undisturbed(s, m, [image[0]]) && Undisturbed(m, t, image[1..])
    ensures Undisturbed(s, t, image)
  {
    forall page: nat | !InImage(image, page)
      ensures !InImage([image[0]], page) && !InImage(image[1..], page)
    {
      NotInParts(image, page);
    }
    hide InImage;
  }

  lemma NotInParts(image: Image, page: nat)
    requires image != [] && !InImage(image, page)
    ensures !InImage([image[0]], page) && !InImage(image[1..], page)
  {
    assert forall i :: 0 <= i < |image| - 1 ==> image[1..][i] == image[i + 1];
  }

  /** The frame of the y-th allocation from now on. */
  function FrameNo(desc: seq<Desc>, y: nat): nat
    requires FIRST_USER_FRAME <= |desc|
    decreases y
  {
    var f := FirstFree(desc, FIRST_USER_FRAME);
    if y == 0 || f == |desc| then f else FrameNo(desc[f := Desc(true, 0)], y - 1)
  }

  /** Entry y of the image decides what its frame holds, and overwriting that frame is the same as having
      mapped the new content; the last entry for a page decides which frame the page has. */
  lemma {:induction false} EntryDecides(s: State, image: Image, y: nat, content: Page)
    requires RoomFor(s, |image|) && y < |image|
    ensures var t, k, f := MapImage(s, image), Slot(s.cur, image[y].0), FrameNo(s.desc, y);
            && f < |t.data| && f < |t.desc| && t.data[f] == image[y].1 && t.desc[f].used && t.cur == s.cur
            && (Last(image, y) ==> k in t.pte && t.pte[k] == Pte(f, true, true, true, false))
            && MapImage(s, image[y := (image[y].0, content)]) == t.(data := t.data[f := content])
    decreases |image|
  {
    var page, c := image[0].0, image[0].1;
    var rest := image[1..];
    MapOneRoom(s, page, c, |image| - 1);
    var m := MapOne(s, page, c);
    assert m.desc == s.desc[NextFrame(s) := Desc(true, 0)] && m.cur == s.cur;
    hide MapFresh, MapOne, FreeFrames, FirstFree;
    if y > 0 {
      assert rest[y - 1] == image[y];
      LastInRest(image, y);
      EntryDecides(m, rest, y - 1, content);
      assert image[y := (image[y].0, content)][1..] == rest[y - 1 := (image[y].0, content)];
    } else {
      hide Last;
      FirstDecides(s, image, content);
    }
  }

  lemma LastInRest(image: Image, y: nat)
    requires 0 < y < |image|
    ensures Last(image, y) ==> Last(image[1..], y - 1)
  {
    assert forall j :: 0 <= j < |image| - 1 ==> image[1..][j] == image[j + 1];
  }

  lemma FirstDecides(s: State, image: Image, content: Page)
    requires RoomFor(s, |image|) && image != []
    ensures var t, k, f := MapImage(s, image), Slot(s.cur, image[0].0), FrameNo(s.desc, 0);
            && f < |t.data| && f < |t.desc| && t.data[f] == image[0].1 && t.desc[f].used && t.cur == s.cur
            && (Last(image, 0) ==> k in t.pte && t.pte[k] == Pte(f, true, true, true, false))
            && MapImage(s, image[0 := (image[0].0, content)]) == t.(data := t.data[f := content])
  {
    var page, c := image[0].0, image[0].1;
    var rest, m := image[1..], MapOne(s, page, c);
    MapOneRoom(s, page, c, |image| - 1);
    assert image[0 := (page, content)][1..] == rest;
    FirstEntry(s, page, c, content);
    MapImageUndisturbed(m, rest);
    MapImageCommutes(m, rest, NextFrame(s), content);
    if Last(image, 0) {
      LastIsNotInRest(image);
    }
    hide MapFresh, MapOne, Last, InImage;
  }

  lemma FirstEntry(s: State, page: nat, c: Page, content: Page)
    requires CanAllocate(s)
    ensures var m, f := MapOne(s, page, c), NextFrame(s);
            && f < |m.data| && f < |m.desc| && m.desc[f].used && m.data[f] == c && m.cur == s.cur
            && Slot(s.cur, page) in m.pte && m.pte[Slot(s.cur, page)] == Pte(f, true, true, true, false)
            && MapOne(s, page, content) == m.(data := m.data[f := content])
  {
  }

  lemma LastIsNotInRest(image: Image)
    requires image != [] && Last(image, 0)
    ensures !InImage(image[1..], image[0].0)
  {
    assert forall j :: 0 <= j < |image| - 1 ==> image[1..][j] == image[j + 1];
  }

  lemma {:induction false} FrameNoFresh(desc: seq<Desc>, y: nat)
    requires FIRST_USER_FRAME <= |desc| && FrameNo(desc, y) < |desc|
    ensures !desc[FrameNo(desc, y)].used
    decreases y
  {
    var f := FirstFree(desc, FIRST_USER_FRAME);
    if y > 0 && f < |desc| {
      FrameNoFresh(desc[f := Desc(true, 0)], y - 1);
    }
  }

  lemma {:induction false} MapImageFlushed(s: State, image: Image)
    requires |s.desc| == |s.data| && FIRST_USER_FRAME <= |s.desc|
    ensures MapImage(Flush(s), image) == Flush(MapImage(s, image))
    decreases |image|
  {
    if image != [] && CanAllocate(s) {
      MapImageFlushed(MapOne(s, image[0].0, image[0].1), image[1..]);
    }
  }

  // ----- umalloc -----

  /** The state as map_virmem_to_phymem takes it, which walks from global_PML4: as if that process ran. */
  function AsTarget(s: State): State {
    s.(cur := s.target)
  }

  method MapUserPage(k: Kernel, page: nat)
    requires k.Valid() && CanAllocate(k.Abs()) && Core(AsTarget(k.Abs())) && page != SCRATCH
    requires DirectPath(k.high, k.target, page)
    modifies k`pte, k`dirs, k.desc
    ensures k.Valid() && CanAllocate(AsTarget(old(k.Abs())))
    ensures AsTarget(k.Abs()) == MapOne(AsTarget(old(k.Abs())), page, ZERO_PAGE)
  {
    AllocationFacts(AsTarget(k.Abs()));
    hide Core, UserRegions, FirstFree;
    var f := k.AllocatePageUser();
    k.MapVirmem(page, Pte(f, true, true, true, false));
    assert k.data[..][f := ZERO_PAGE] == k.data[..];
  }

  /** The first n pages are mapped, and frames are left for the others. */
  ghost predicate Mapping(now: State, s: State, addr: nat, n: nat, count: nat) {
    && n <= count && |s.desc| == |s.data| && FIRST_USER_FRAME <= |s.desc|
    && now == MapImage(s, Pages(addr, n, [])) && Core(now) && RoomFor(now, count - n)
  }

  lemma NothingMapped(s: State, addr: nat, count: nat)
    requires Core(s) && RoomFor(s, count)
    ensures Mapping(s, s, addr, 0, count)
  {
    hide Core, RoomFor;
    assert Pages(addr, 0, []) == [];
    assert Sized(s) by {
      CoreIsSized(s);
    }
  }

  lemma CoreIsSized(s: State)
    requires Core(s)
    ensures Sized(s)
  {
  }

  lemma CanMapNext(now: State, s: State, addr: nat, n: nat, count: nat)
    requires Mapping(now, s, addr, n, count) && n < count
    ensures Core(now) && CanAllocate(now)
  {
    AllocationCount(now);
  }

  lemma PagesNext(addr: nat, n: nat)
    ensures Pages(addr, n + 1, []) == Pages(addr, n, []) + [(addr / PAGE_SIZE + n, ZERO_PAGE)]
  {
    NoBytes(addr, addr / PAGE_SIZE + n);
    hide Content;
  }

  lemma MapsNext(now: State, s: State, addr: nat, n: nat, count: nat)
    requires Mapping(now, s, addr, n, count) && n < count && CanAllocate(now)
    ensures Mapping(MapOne(now, addr / PAGE_SIZE + n, ZERO_PAGE), s, addr, n + 1, count)
  {
    hide Core, MapFresh, CanAllocate, RoomFor;
    var page := addr / PAGE_SIZE + n;
    PagesNext(addr, n);
    hide Pages;
    MapImageSnoc(s, Pages(addr, n, []), page, ZERO_PAGE);
    MapOneRoom(now, page, ZERO_PAGE, count - n - 1);
    MapImageKeepsCore(now, [(page, ZERO_PAGE)]);
    MapImageSnoc(now, [], page, ZERO_PAGE);
    assert [] + [(page, ZERO_PAGE)] == [(page, ZERO_PAGE)];
  }

  /** Every table on the way to the range's pages lies in the direct map. */
  ghost predicate DirectRange(high: set<Dir>, pid: nat, addr: nat, size: nat) {
    forall page {:trigger Covers(addr, size, page)} :: Covers(addr, size, page) ==> DirectPath(high, pid, page)
  }

  /** umalloc: zero frames over the range's pages, in the tables that global_PML4 names, whoever runs. No
      cr3 reload: whatever the TLB holds stays there. */
  method Umalloc(k: Kernel, addr: nat, size: nat)
    requires k.Valid() && Core(k.Abs()) && RoomFor(k.Abs(), PageCount(addr, size)) && addr + size <= USER_END
    requires k.target in k.mms && DirectRange(k.high, k.target, addr, size)
    modifies k`pte, k`dirs, k.desc
    ensures k.Valid() && |old(k.Abs()).desc| == |old(k.Abs()).data| && FIRST_USER_FRAME <= |old(k.Abs()).desc|
    ensures Core(k.Abs())
    ensures k.Abs() == MapFor(old(k.Abs()), k.target, Pages(addr, PageCount(addr, size), []))
    ensures k.target == k.cur ==> k.Abs() == MapImage(old(k.Abs()), Pages(addr, PageCount(addr, size), []))
  {
    ghost var s := k.Abs();
    Targets(k);
    hide *;
    TargetCore(s);
    var pageNum := PageNumber(addr, size);
    NothingMapped(AsTarget(s), addr, PageCount(addr, size));
    MapRange(k, addr, pageNum, AsTarget(s), size);
    AllMapped(AsTarget(k.Abs()), AsTarget(s), addr, PageCount(addr, size));
    Targets(k);
    BackFromTarget(k.Abs(), s, Pages(addr, PageCount(addr, size), []));
  }

  lemma Targets(k: Kernel)
    ensures k.Abs().target == k.target && k.Abs().cur == k.cur && k.Abs().mms == k.mms
  {
  }

  lemma TargetCore(s: State)
    requires Core(s) && s.target in s.mms
    ensures Core(AsTarget(s)) && AsTarget(s).desc == s.desc
    ensures forall n: nat {:trigger RoomFor(s, n)} :: RoomFor(s, n) ==> RoomFor(AsTarget(s), n)
  {
    SwitchKeepsCore(s, s.target);
  }

  lemma BackFromTarget(now: State, s: State, image: Image)
    requires Core(AsTarget(now)) && |s.desc| == |s.data| && FIRST_USER_FRAME <= |s.desc|
    requires AsTarget(now) == MapImage(AsTarget(s), image)
    requires now.cur == s.cur && s.cur in s.mms && now.target == s.target && now.mms == s.mms
    ensures Core(now) && now == MapFor(s, s.target, image)
    ensures s.target == s.cur ==> now == MapImage(s, image)
  {
    SwitchKeepsCore(AsTarget(now), now.cur);
    hide Core, MapImage;
    assert AsTarget(now).(cur := now.cur) == now;
  }

  method PageNumber(addr: nat, size: nat) returns (pageNum: nat)
    ensures pageNum == PageCount(addr, size)
    ensures addr + size <= USER_END ==> (addr / PAGE_SIZE + pageNum) * PAGE_SIZE <= USER_END + PAGE_SIZE
  {
    var base := addr / PAGE_SIZE * PAGE_SIZE;
    pageNum := 1;
    var gap := base + PAGE_SIZE - addr;
    if size > gap {
      pageNum := pageNum + (size - gap) / PAGE_SIZE;
      if (size - gap) % PAGE_SIZE != 0 {
        pageNum := pageNum + 1;
      }
    }
  }

  /** umalloc's loop. */
  method MapRange(k: Kernel, addr: nat, count: nat, ghost s: State, ghost size: nat)
    requires k.Valid() && Mapping(AsTarget(k.Abs()), s, addr, 0, count)
    requires (addr / PAGE_SIZE + count) * PAGE_SIZE <= USER_END + PAGE_SIZE
    requires DirectRange(k.high, k.target, addr, size) && count == PageCount(addr, size)
    modifies k`pte, k`dirs, k.desc
    ensures k.Valid() && Mapping(AsTarget(k.Abs()), s, addr, count, count)
  {
    hide Mapping, Core, CanAllocate, MapOne, SCRATCH, Kernel.Valid, Kernel.Abs, PageCount, AsTarget, DirectPath;
    var base, pageNum := addr / PAGE_SIZE * PAGE_SIZE, count;
    ghost var n := 0;
    while pageNum > 0
      invariant pageNum + n == count && base == (addr / PAGE_SIZE + n) * PAGE_SIZE
      invariant k.Valid() && Mapping(AsTarget(k.Abs()), s, addr, n, count)
    {
      CanMapNext(AsTarget(k.Abs()), s, addr, n, count);
      MapsNext(AsTarget(k.Abs()), s, addr, n, count);
      IsNotScratch(addr / PAGE_SIZE + n);
      SameRoom(k.Abs());
      assert Covers(addr, size, addr / PAGE_SIZE + n);
      MapUserPage(k, base / PAGE_SIZE);
      pageNum, base, n := pageNum - 1, base + PAGE_SIZE, n + 1;
    }
  }

  lemma SameRoom(s: State)
    ensures CanAllocate(AsTarget(s)) == CanAllocate(s)
  {
  }

  lemma IsNotScratch(page: nat)
    requires page * PAGE_SIZE < USER_END + PAGE_SIZE
    ensures page != SCRATCH
  {
  }

  lemma AllMapped(now: State, s: State, addr: nat, count: nat)
    requires Mapping(now, s, addr, count, count)
    ensures Core(now) && |s.desc| == |s.data| && FIRST_USER_FRAME <= |s.desc|
            && now == MapImage(s, Pages(addr, count, []))
  {
    hide Core, RoomFor;
  }

  // ----- whose tables umalloc edits -----

  lemma PagesAreLast(addr: nat, count: nat, i: nat)
    requires i < count
    ensures var image := Pages(addr, count, []);
            |image| == count && image[i] == (addr / PAGE_SIZE + i, ZERO_PAGE) && Last(image, i)
  {
    NoBytes(addr, addr / PAGE_SIZE + i);
    hide Content;
  }

  /** Each page of the range gets a frame that was free, in the address space global_PML4 names. */
  lemma UmallocEditsTarget(s: State, addr: nat, size: nat, page: nat)
    requires Core(s) && s.target in s.mms && RoomFor(s, PageCount(addr, size)) && Covers(addr, size, page)
    ensures var t, k := MapFor(s, s.target, Pages(addr, PageCount(addr, size), [])), Slot(s.target, page);
            && k in t.pte && t.pte[k].frame < |t.data| && t.pte[k].frame < |s.desc|
            && !s.desc[t.pte[k].frame].used && t.data[t.pte[k].frame] == ZERO_PAGE
            && !(k in s.pte && s.pte[k] == t.pte[k])
  {
    var k, i, image := Slot(s.target, page), page - addr / PAGE_SIZE, Pages(addr, PageCount(addr, size), []);
    assert i < PageCount(addr, size);
    TargetParts(s, image);
    hide *;
    TargetCore(s);
    PagesAreLast(addr, PageCount(addr, size), i);
    EntryDecides(AsTarget(s), image, i, ZERO_PAGE);
    SameSize(AsTarget(s), image);
    FrameNoFresh(s.desc, i);
    if k in s.pte {
      EntryUsed(s, k);
    }
  }

  lemma TargetParts(s: State, image: Image)
    requires |s.desc| == |s.data| && FIRST_USER_FRAME <= |s.desc|
    ensures AsTarget(s).cur == s.target && AsTarget(s).desc == s.desc && AsTarget(s).data == s.data
    ensures var t, u := MapFor(s, s.target, image), MapImage(AsTarget(s), image); t.pte == u.pte && t.data == u.data
  {
    hide MapImage;
  }

  lemma SameSize(s: State, image: Image)
    requires RoomFor(s, |image|)
    ensures |MapImage(s, image).desc| == |s.desc|
  {
    MapImageUndisturbed(s, image);
    hide MapImage, InImage;
  }

  lemma EntryUsed(s: State, k: Slot)
    requires Core(s) && k in s.pte
    ensures s.pte[k].frame < |s.desc| && s.desc[s.pte[k].frame].used
  {
    assert EntryOk(s, k, s.pte[k]);
  }

  /** umalloc leaves the running process's entries as they were if and only if global_PML4 names another. */
  lemma UmallocMissesIff(s: State, addr: nat, size: nat)
    requires Core(s) && s.target in s.mms && RoomFor(s, PageCount(addr, size))
    ensures SameEntries(s, MapFor(s, s.target, Pages(addr, PageCount(addr, size), [])), s.cur) <==> s.target != s.cur
  {
    var image := Pages(addr, PageCount(addr, size), []);
    var t := MapFor(s, s.target, image);
    UmallocEditsTarget(s, addr, size, addr / PAGE_SIZE);
    TargetCore(s);
    PagesAreLast(addr, PageCount(addr, size), 0);
    MapImageUndisturbed(AsTarget(s), image);
    hide Core, MapImage, PageCount, InImage;
    if s.target == s.cur {
      assert Slot(s.cur, addr / PAGE_SIZE).pid == s.cur;
    }
  }

  ghost predicate SameEntries(s: State, t: State, pid: nat) {
    forall k: Slot {:trigger k in t.pte} {:trigger k in s.pte} :: k.pid == pid ==>
      (k in t.pte <==> k in s.pte) && (k in s.pte ==> t.pte[k] == s.pte[k])
  }

  lemma {:induction false} ZeroPages(addr: nat, count: nat)
    ensures Pages(addr, count, []) == ZeroImage(PageRange(addr / PAGE_SIZE, addr / PAGE_SIZE + count))
  {
    var pages := PageRange(addr / PAGE_SIZE, addr / PAGE_SIZE + count);
    RangeAt(addr / PAGE_SIZE, count);
    forall i: nat | i < count
      ensures Pages(addr, count, [])[i] == ZeroImage(pages)[i]
    {
      PagesAreLast(addr, count, i);
    }
  }

  lemma {:induction false} RangeAt(from: nat, count: nat)
    ensures |PageRange(from, from + count)| == count
    ensures forall i: nat {:trigger PageRange(from, from + count)[i]} :: i < count ==>
              PageRange(from, from + count)[i] == from + i
    decreases count
  {
    if count > 0 {
      RangeAt(from, count - 1);
    }
  }

  /** When it names another, umalloc is the step MapElse of the state machine. */
  lemma UmallocIsMapElse(s: State, addr: nat, size: nat)
    requires Core(s) && s.target in s.mms && s.target != s.cur && Runnable(s)
    ensures var pages := PageRange(addr / PAGE_SIZE, addr / PAGE_SIZE + PageCount(addr, size));
            && MapFor(s, s.target, Pages(addr, PageCount(addr, size), [])) == Next(s, MapElse(pages)).0
            && (DirectRange(s.high, s.target, addr, size) ==> Allowed(s, MapElse(pages)))
  {
    var pages := PageRange(addr / PAGE_SIZE, addr / PAGE_SIZE + PageCount(addr, size));
    ZeroPages(addr, PageCount(addr, size));
    assert forall v {:trigger v in pages} :: v in pages ==> Covers(addr, size, v);
    hide PageCount, MapImage, Core, DirectPath;
  }
}
