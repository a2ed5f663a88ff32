/** load_elf in place. umalloc replaces page-table entries and nothing reloads cr3 before the copies, so
    a page that an earlier segment left in the TLB is still reached through its old frame. Which
    translations stay cached is a parameter, and every result holds for every choice of it. */
module ElfLoad {
  import opened Addresses
  import opened Options
  import opened CowModel
  import opened CowSafety
  import opened CowKernel
  import opened Elf

  /** Whether the TLB still holds a translation after the store to an address that used it. */
  type Keeps = nat -> bool

  function PageNo(a: nat): nat { a / PAGE_SIZE }

  // ----- one store -----

  /** Every cached translation is that of an image entry for its page: at says which one. */
  ghost predicate CachedEntries(tlb: map<nat, Pte>, desc: seq<Desc>, image: Image, at: map<nat, nat>)
    requires FIRST_USER_FRAME <= |desc|
  {
    && at.Keys == tlb.Keys
    && forall p {:trigger at[p]} {:trigger p in at} :: p in at ==>
         at[p] < |image| && image[at[p]].0 == p && tlb[p] == Pte(FrameNo(desc, at[p]), true, true, true, false)
  }

  /** The kernel's state is the image mapped over s, TLB apart. */
  ghost predicate Sim(now: State, s: State, image: Image, at: map<nat, nat>) {
    RoomFor(s, |image|) && Flush(now) == Flush(MapImage(s, image)) && CachedEntries(now.tlb, s.desc, image, at)
  }

  /** The entry a store reaches: the cached one, or the page's own. */
  function Target(at: map<nat, nat>, page: nat, own: nat): nat {
    if page in at then at[page] else own
  }

  /** The image after a store. */
  function AfterStore(image: Image, at: map<nat, nat>, own: nat, a: nat, b: Byte): Image
    requires Target(at, PageNo(a), own) < |image|
  {
    var y := Target(at, PageNo(a), own);
    image[y := (image[y].0, Put(image[y].1, a % PAGE_SIZE, b))]
  }

  function AfterCaching(at: map<nat, nat>, page: nat, own: nat, keep: bool): map<nat, nat> {
    if keep then at[page := Target(at, page, own)] else at - {page}
  }

  lemma TargetInside(now: State, s: State, image: Image, at: map<nat, nat>, page: nat, own: nat)
    requires Sim(now, s, image, at) && own < |image| && image[own].0 == page
    ensures Target(at, page, own) < |image| && image[Target(at, page, own)].0 == page
  {
    hide MapImage, RoomFor, FrameNo;
  }

  /** What the store's translation is, and what storing through it makes of the image. */
  lemma StoreReaches(now: State, s: State, image: Image, at: map<nat, nat>, a: nat, b: Byte, own: nat)
    requires Sim(now, s, image, at) && own < |image| && image[own].0 == PageNo(a) && Last(image, own)
    ensures var k, y := Slot(now.cur, PageNo(a)), Target(at, PageNo(a), own);
            && y < |image| && k in now.pte && now.pte[k].writable
            && var e := Through(now.tlb, PageNo(a), now.pte[k]);
               && e == Pte(FrameNo(s.desc, y), true, true, true, false) && e.frame < |now.data|
               && Flush(MapImage(s, AfterStore(image, at, own, a, b))) ==
                  Flush(now.(data := now.data[e.frame := Put(now.data[e.frame], a % PAGE_SIZE, b)]))
  {
    var y := Target(at, PageNo(a), own);
    TargetInside(now, s, image, at, PageNo(a), own);
    EntryDecides(s, image, own, image[own].1);
    EntryDecides(s, image, y, Put(image[y].1, a % PAGE_SIZE, b));
    hide MapImage, RoomFor, FrameNo, Last, Put;
    var t := MapImage(s, image);
    assert now.pte == t.pte && now.cur == t.cur && now.data == t.data;
  }

  /** The translation an access uses: a cached one wins over the entry in the table. */
  function Through(tlb: map<nat, Pte>, page: nat, entry: Pte): Pte {
    if page in tlb then tlb[page] else entry
  }

  lemma CachingKeeps(tlb: map<nat, Pte>, desc: seq<Desc>, image: Image, at: map<nat, nat>, a: nat, b: Byte, own: nat,
                     keep: bool, e: Pte)
    requires FIRST_USER_FRAME <= |desc| && CachedEntries(tlb, desc, image, at)
    requires Target(at, PageNo(a), own) < |image| && image[Target(at, PageNo(a), own)].0 == PageNo(a)
    requires e == Pte(FrameNo(desc, Target(at, PageNo(a), own)), true, true, true, false)
    ensures CachedEntries(if keep then tlb[PageNo(a) := e] else tlb - {PageNo(a)}, desc,
                          AfterStore(image, at, own, a, b), AfterCaching(at, PageNo(a), own, keep))
  {
    hide FrameNo, Put;
  }

  /** One store by virtual address to a page of the image. */
  method StoreByte(k: Kernel, a: nat, b: Byte, keep: bool, ghost s: State, ghost image: Image,
                   ghost at: map<nat, nat>, ghost own: nat)
    requires k.Valid() && Sim(k.Abs(), s, image, at) && own < |image| && image[own].0 == PageNo(a) && Last(image, own)
    modifies k`tlb, k.data
    ensures k.Valid() && Target(at, PageNo(a), own) < |image|
    ensures Sim(k.Abs(), s, AfterStore(image, at, own, a, b), AfterCaching(at, PageNo(a), own, keep))
  {
    ghost var now := k.Abs();
    var page := PageNo(a);
    StoreReaches(now, s, image, at, a, b, own);
    TargetInside(now, s, image, at, page, own);
    hide Sim, Last, AfterStore, AfterCaching, Target, UserRegions, Put, PageNo, Through, MapImage, FrameNo;
    var e := Through(k.tlb, page, k.pte[Slot(k.cur, page)]);
    k.data[e.frame] := Put(k.data[e.frame], a % PAGE_SIZE, b);
    k.tlb := if keep then k.tlb[page := e] else k.tlb - {page};
    StoreKeepsSim(now, k.Abs(), s, image, at, a, b, own, keep, e);
  }

  lemma StoreKeepsSim(now: State, t: State, s: State, image: Image, at: map<nat, nat>, a: nat, b: Byte, own: nat,
                      keep: bool, e: Pte)
    requires Sim(now, s, image, at) && Target(at, PageNo(a), own) < |image|
    requires image[Target(at, PageNo(a), own)].0 == PageNo(a) && e.frame < |now.data|
    requires e == Pte(FrameNo(s.desc, Target(at, PageNo(a), own)), true, true, true, false)
    requires t == now.(data := now.data[e.frame := Put(now.data[e.frame], a % PAGE_SIZE, b)],
                       tlb := if keep then now.tlb[PageNo(a) := e] else now.tlb - {PageNo(a)})
    requires Flush(MapImage(s, AfterStore(image, at, own, a, b))) ==
             Flush(now.(data := now.data[e.frame := Put(now.data[e.frame], a % PAGE_SIZE, b)]))
    ensures Sim(t, s, AfterStore(image, at, own, a, b), AfterCaching(at, PageNo(a), own, keep))
  {
    hide MapImage, FrameNo, Put, PageNo, CachedEntries, AfterStore, AfterCaching, Target, FreeFrames;
    CachingKeeps(now.tlb, s.desc, image, at, a, b, own, keep, e);
    StoredSize(image, at, own, a, b);
  }

  lemma StoredSize(image: Image, at: map<nat, nat>, own: nat, a: nat, b: Byte)
    requires Target(at, PageNo(a), own) < |image|
    ensures |AfterStore(image, at, own, a, b)| == |image|
  {
  }

  // ----- which stores of a segment land -----

  /** After n stores from addr on: the page is cached, given whether it was before. */
  predicate InTlb(was: bool, addr: nat, n: nat, keeps: Keeps, page: nat) {
    if n == 0 then was
    else if (addr + n - 1) / PAGE_SIZE == page then keeps(addr + n - 1)
    else InTlb(was, addr, n - 1, keeps, page)
  }

  /** ... and still through the translation it had before. */
  predicate Stale(was: bool, addr: nat, n: nat, keeps: Keeps, page: nat) {
    if n == 0 then was
    else Stale(was, addr, n - 1, keeps, page) && ((addr + n - 1) / PAGE_SIZE == page ==> keeps(addr + n - 1))
  }

  lemma {:induction false} StaleIsCached(was: bool, addr: nat, n: nat, keeps: Keeps, page: nat)
    requires Stale(was, addr, n, keeps, page)
    ensures InTlb(was, addr, n, keeps, page)
    decreases n
  {
    if n > 0 {
      StaleIsCached(was, addr, n - 1, keeps, page);
    }
  }

  /** A store reaches the page's new frame unless the stale translation lasts until then. */
  predicate Lands(was: bool, addr: nat, keeps: Keeps, a: nat) {
    a < addr || !Stale(was, addr, a - addr, keeps, a / PAGE_SIZE)
  }

  predicate LandsAt(was: bool, addr: nat, keeps: Keeps, page: nat, o: nat) {
    Lands(was, addr, keeps, page * PAGE_SIZE + o)
  }

  /** What the stores leave in the page's new frame. */
  function Landed(was: bool, addr: nat, bytes: seq<Byte>, keeps: Keeps, page: nat): Page {
    map o: nat | o < PAGE_SIZE && Within(addr, |bytes|, page, o) && LandsAt(was, addr, keeps, page, o) ::
      bytes[page * PAGE_SIZE + o - addr]
  }

  lemma LastLands(was: bool, addr: nat, n: nat, keeps: Keeps, page: nat)
    ensures page == (addr + n) / PAGE_SIZE ==>
              LandsAt(was, addr, keeps, page, (addr + n) % PAGE_SIZE) == !Stale(was, addr, n, keeps, page)
  {
    hide Stale;
  }

  lemma NextLanded(was: bool, addr: nat, bytes: seq<Byte>, b: Byte, keeps: Keeps, page: nat)
    ensures var a := addr + |bytes|;
            Landed(was, addr, bytes + [b], keeps, page) ==
              if page == a / PAGE_SIZE && !Stale(was, addr, |bytes|, keeps, page)
              then Put(Landed(was, addr, bytes, keeps, page), a % PAGE_SIZE, b)
              else Landed(was, addr, bytes, keeps, page)
  {
    hide Landed, Stale;
    if page == (addr + |bytes|) / PAGE_SIZE && !Stale(was, addr, |bytes|, keeps, page) {
      OneMoreLanded(was, addr, bytes, b, keeps, page);
    } else {
      NoMoreLanded(was, addr, bytes, b, keeps, page);
    }
  }

  lemma NextOffset(addr: nat, n: nat, page: nat)
    ensures forall o: nat {:trigger Within(addr, n + 1, page, o)} {:trigger Within(addr, n, page, o)} ::
              o < PAGE_SIZE ==>
              (Within(addr, n + 1, page, o) <==>
                 Within(addr, n, page, o) || (page == (addr + n) / PAGE_SIZE && o == (addr + n) % PAGE_SIZE))
  {
    forall o: nat | o < PAGE_SIZE
      ensures Within(addr, n + 1, page, o) <==>
              Within(addr, n, page, o) || (page == (addr + n) / PAGE_SIZE && o == (addr + n) % PAGE_SIZE)
    {
      NextWithin(addr, n, page, o);
    }
  }

  lemma OneMoreLanded(was: bool, addr: nat, bytes: seq<Byte>, b: Byte, keeps: Keeps, page: nat)
    requires page == (addr + |bytes|) / PAGE_SIZE && !Stale(was, addr, |bytes|, keeps, page)
    ensures Landed(was, addr, bytes + [b], keeps, page) ==
            Put(Landed(was, addr, bytes, keeps, page), (addr + |bytes|) % PAGE_SIZE, b)
  {
    LastLands(was, addr, |bytes|, keeps, page);
    NextOffset(addr, |bytes|, page);
    hide Stale, Lands, LandsAt;
    var more, less := Landed(was, addr, bytes + [b], keeps, page), Landed(was, addr, bytes, keeps, page);
    forall o: nat
      ensures o in more <==> o in less || o == (addr + |bytes|) % PAGE_SIZE
      ensures o in more ==> more[o] == if o == (addr + |bytes|) % PAGE_SIZE then b else less[o]
    {
    }
    hide Landed, Within;
    assert more == Put(less, (addr + |bytes|) % PAGE_SIZE, b);
  }

  lemma NoMoreLanded(was: bool, addr: nat, bytes: seq<Byte>, b: Byte, keeps: Keeps, page: nat)
    requires !(page == (addr + |bytes|) / PAGE_SIZE && !Stale(was, addr, |bytes|, keeps, page))
    ensures Landed(was, addr, bytes + [b], keeps, page) == Landed(was, addr, bytes, keeps, page)
  {
    LastLands(was, addr, |bytes|, keeps, page);
    NextOffset(addr, |bytes|, page);
    hide Stale, Lands, LandsAt;
    assert Landed(was, addr, bytes + [b], keeps, page) == Landed(was, addr, bytes, keeps, page);
  }

  lemma NoneLanded(was: bool, addr: nat, keeps: Keeps, page: nat)
    ensures Landed(was, addr, [], keeps, page) == ZERO_PAGE
  {
  }

  // ----- the stores of one segment -----

  predicate Inside(addr: nat, count: nat, page: nat) {
    addr / PAGE_SIZE <= page < addr / PAGE_SIZE + count
  }

  /** The index of a page's entry among those umalloc has just added to the image. */
  function Own(base: nat, addr: nat, page: nat): nat {
    if page >= addr / PAGE_SIZE then base + (page - addr / PAGE_SIZE) else base
  }

  /** The segment's entries hold what has landed; other pages' entries are as before. */
  ghost predicate Contents(was: Image, at0: map<nat, nat>, addr: nat, count: nat, done: seq<Byte>, keeps: Keeps,
                           image: Image) {
    && |image| == |was| + count
    && (forall x {:trigger image[x]} :: 0 <= x < |was| ==>
          image[x].0 == was[x].0 && (Inside(addr, count, was[x].0) || image[x] == was[x]))
    && (forall p {:trigger Inside(addr, count, p)} :: Inside(addr, count, p) ==>
          image[Own(|was|, addr, p)] == (p, Landed(p in at0, addr, done, keeps, p)))
  }

  /** The segment's pages are cached as the stores left them, through the old or the new frame; other
      pages are cached as before. */
  ghost predicate Cache(was: Image, at0: map<nat, nat>, addr: nat, count: nat, n: nat, keeps: Keeps,
                        at: map<nat, nat>) {
    && (forall p: nat {:trigger p in at} {:trigger p in at0} :: !Inside(addr, count, p) ==>
          (p in at <==> p in at0) && (p in at ==> at[p] == at0[p]))
    && (forall p: nat {:trigger p in at} :: Inside(addr, count, p) ==>
          && (p in at <==> InTlb(p in at0, addr, n, keeps, p))
          && (p in at ==>
                if Stale(p in at0, addr, n, keeps, p) then p in at0 && at[p] == at0[p]
                else at[p] == Own(|was|, addr, p)))
  }

  /** The old image's cached entries are old entries of their pages. */
  ghost predicate OldEntries(was: Image, at0: map<nat, nat>) {
    forall p {:trigger at0[p]} :: p in at0 ==> at0[p] < |was| && was[at0[p]].0 == p
  }

  lemma CacheNext(was: Image, at0: map<nat, nat>, addr: nat, count: nat, n: nat, keeps: Keeps, at: map<nat, nat>)
    requires Cache(was, at0, addr, count, n, keeps, at) && Inside(addr, count, PageNo(addr + n))
    ensures var p := PageNo(addr + n);
            Cache(was, at0, addr, count, n + 1, keeps, AfterCaching(at, p, Own(|was|, addr, p), keeps(addr + n)))
  {
    var p := PageNo(addr + n);
    if Stale(p in at0, addr, n, keeps, p) {
      StaleIsCached(p in at0, addr, n, keeps, p);
    }
    hide Own, Inside;
  }

  lemma ContentsNext(was: Image, at0: map<nat, nat>, addr: nat, count: nat, done: seq<Byte>, b: Byte, keeps: Keeps,
                     image: Image, at: map<nat, nat>)
    requires Contents(was, at0, addr, count, done, keeps, image) && Cache(was, at0, addr, count, |done|, keeps, at)
    requires OldEntries(was, at0) && Inside(addr, count, PageNo(addr + |done|))
    ensures var p := PageNo(addr + |done|);
            && Target(at, p, Own(|was|, addr, p)) < |image|
            && Contents(was, at0, addr, count, done + [b], keeps, AfterStore(image, at, Own(|was|, addr, p),
                                                                             addr + |done|, b))
  {
    var p := PageNo(addr + |done|);
    StaleTarget(was, at0, addr, count, |done|, keeps, at, p);
    OwnDiffers(|was|, addr, count, p, p);
    hide Landed, Stale, Put, Cache, OldEntries, Target, Own, AfterStore;
    forall q | Inside(addr, count, q)
      ensures AfterStore(image, at, Own(|was|, addr, p), addr + |done|, b)[Own(|was|, addr, q)] ==
              (q, Landed(q in at0, addr, done + [b], keeps, q))
    {
      EntryFilled(was, at0, addr, count, done, b, keeps, image, at, q);
    }
    OldEntriesKept(was, at0, addr, count, done, b, keeps, image, at);
  }

  /** The store leaves alone the entries of other pages. */
  lemma OldEntriesKept(was: Image, at0: map<nat, nat>, addr: nat, count: nat, done: seq<Byte>, b: Byte, keeps: Keeps,
                       image: Image, at: map<nat, nat>)
    requires Contents(was, at0, addr, count, done, keeps, image) && Inside(addr, count, PageNo(addr + |done|))
    requires var p := PageNo(addr + |done|); var y := Target(at, p, Own(|was|, addr, p));
             y < |image| && (y < |was| ==> was[y].0 == p)
    ensures var image' := AfterStore(image, at, Own(|was|, addr, PageNo(addr + |done|)), addr + |done|, b);
            && |image'| == |image|
            && forall x {:trigger image'[x]} :: 0 <= x < |was| ==>
                 image'[x].0 == was[x].0 && (Inside(addr, count, was[x].0) || image'[x] == was[x])
  {
    hide Landed, Put, Target, Own, PageNo, Inside;
  }

  /** The store brings one entry of the segment up to date. */
  lemma EntryFilled(was: Image, at0: map<nat, nat>, addr: nat, count: nat, done: seq<Byte>, b: Byte, keeps: Keeps,
                    image: Image, at: map<nat, nat>, q: nat)
    requires Contents(was, at0, addr, count, done, keeps, image) && Inside(addr, count, PageNo(addr + |done|))
    requires Inside(addr, count, q)
    requires var p := PageNo(addr + |done|); var y := Target(at, p, Own(|was|, addr, p));
             if Stale(p in at0, addr, |done|, keeps, p) then y < |was| && was[y].0 == p else y == Own(|was|, addr, p)
    ensures var p := PageNo(addr + |done|);
            && Target(at, p, Own(|was|, addr, p)) < |image| && Own(|was|, addr, q) < |image|
            && AfterStore(image, at, Own(|was|, addr, p), addr + |done|, b)[Own(|was|, addr, q)] ==
               (q, Landed(q in at0, addr, done + [b], keeps, q))
  {
    var p := PageNo(addr + |done|);
    NextLanded(q in at0, addr, done, b, keeps, q);
    OwnDiffers(|was|, addr, count, p, q);
    OwnDiffers(|was|, addr, count, q, p);
    hide Landed, Stale, Put, Target, Own, Inside;
  }

  lemma OwnDiffers(base: nat, addr: nat, count: nat, p: nat, q: nat)
    requires Inside(addr, count, p) && Inside(addr, count, q)
    ensures base <= Own(base, addr, q) < base + count && (q != p ==> Own(base, addr, q) != Own(base, addr, p))
  {
  }

  /** The entry a store of the segment reaches: an old one of its page, or the new one. */
  lemma StaleTarget(was: Image, at0: map<nat, nat>, addr: nat, count: nat, n: nat, keeps: Keeps, at: map<nat, nat>,
                    p: nat)
    requires Cache(was, at0, addr, count, n, keeps, at) && OldEntries(was, at0) && Inside(addr, count, p)
    ensures var y := Target(at, p, Own(|was|, addr, p));
            if Stale(p in at0, addr, n, keeps, p) then y < |was| && was[y].0 == p else y == Own(|was|, addr, p)
  {
    hide InTlb, Stale;
    if Stale(p in at0, addr, n, keeps, p) {
      StaleIsCached(p in at0, addr, n, keeps, p);
    }
  }

  /** A segment is being filled: umalloc has mapped its pages over the image was, and the bytes done are
      stored. */
  ghost predicate Filling(now: State, s: State, was: Image, at0: map<nat, nat>, addr: nat, count: nat, done: seq<Byte>,
                          keeps: Keeps, image: Image, at: map<nat, nat>) {
    && Sim(now, s, image, at) && OldEntries(was, at0)
    && Contents(was, at0, addr, count, done, keeps, image) && Cache(was, at0, addr, count, |done|, keeps, at)
  }

  lemma OwnIsLast(was: Image, at0: map<nat, nat>, addr: nat, count: nat, done: seq<Byte>, keeps: Keeps, image: Image,
                  p: nat)
    requires Contents(was, at0, addr, count, done, keeps, image) && Inside(addr, count, p)
    ensures Own(|was|, addr, p) < |image| && image[Own(|was|, addr, p)].0 == p && Last(image, Own(|was|, addr, p))
  {
    forall x | Own(|was|, addr, p) < x < |image|
      ensures image[x].0 != p
    {
      var q := addr / PAGE_SIZE + (x - |was|);
      assert Inside(addr, count, q) && Own(|was|, addr, q) == x;
    }
  }

  /** The entry the next byte is meant for. */
  lemma BeforeStore(now: State, s: State, was: Image, at0: map<nat, nat>, addr: nat, count: nat, done: seq<Byte>,
                    keeps: Keeps, image: Image, at: map<nat, nat>) returns (own: nat)
    requires Filling(now, s, was, at0, addr, count, done, keeps, image, at)
             && Inside(addr, count, PageNo(addr + |done|))
    ensures own == Own(|was|, addr, PageNo(addr + |done|)) && Sim(now, s, image, at)
    ensures own < |image| && image[own].0 == PageNo(addr + |done|) && Last(image, own)
  {
    own := Own(|was|, addr, PageNo(addr + |done|));
    OwnIsLast(was, at0, addr, count, done, keeps, image, PageNo(addr + |done|));
    hide Sim, Contents, Cache, OldEntries, Inside, Own, Last;
  }

  lemma ByteFilled(now: State, t: State, s: State, was: Image, at0: map<nat, nat>, addr: nat, count: nat,
                   done: seq<Byte>, b: Byte,
                   keeps: Keeps, image: Image, at: map<nat, nat>, own: nat)
    requires Filling(now, s, was, at0, addr, count, done, keeps, image, at)
             && Inside(addr, count, PageNo(addr + |done|))
    requires own == Own(|was|, addr, PageNo(addr + |done|)) && Target(at, PageNo(addr + |done|), own) < |image|
    requires var a := addr + |done|;
             Sim(t, s, AfterStore(image, at, own, a, b), AfterCaching(at, PageNo(a), own, keeps(a)))
    ensures var a := addr + |done|;
            Filling(t, s, was, at0, addr, count, done + [b], keeps,
                    AfterStore(image, at, own, a, b), AfterCaching(at, PageNo(a), own, keeps(a)))
  {
    hide *;
    var a := addr + |done|;
    FillingIs(now, s, was, at0, addr, count, done, keeps, image, at);
    ContentsNext(was, at0, addr, count, done, b, keeps, image, at);
    CacheNext(was, at0, addr, count, |done|, keeps, at);
    FillingIs(t, s, was, at0, addr, count, done + [b], keeps, AfterStore(image, at, own, a, b),
              AfterCaching(at, PageNo(a), own, keeps(a)));
  }

  /** One byte more. */
  method StoreNext(k: Kernel, b: Byte, ghost s: State, ghost was: Image, ghost at0: map<nat, nat>, addr: nat,
                   ghost count: nat,
                   ghost done: seq<Byte>, n: nat, keeps: Keeps, ghost image: Image, ghost at: map<nat, nat>)
    returns (ghost image': Image, ghost at': map<nat, nat>)
    requires k.Valid() && Filling(k.Abs(), s, was, at0, addr, count, done, keeps, image, at) && n == |done|
    requires Inside(addr, count, PageNo(addr + n))
    modifies k`tlb, k.data
    ensures k.Valid() && Filling(k.Abs(), s, was, at0, addr, count, done + [b], keeps, image', at')
  {
    hide *;
    ghost var now := k.Abs();
    ghost var own := BeforeStore(now, s, was, at0, addr, count, done, keeps, image, at);
    StoreByte(k, addr + n, b, keeps(addr + n), s, image, at, own);
    ByteFilled(now, k.Abs(), s, was, at0, addr, count, done, b, keeps, image, at, own);
    image', at' := AfterStore(image, at, own, addr + n, b), AfterCaching(at, PageNo(addr + n), own, keeps(addr + n));
  }

  lemma AllInside(addr: nat, size: nat, n: nat)
    requires n < size
    ensures Inside(addr, PageCount(addr, size), PageNo(addr + n))
  {
    AddressCovered(addr, size, addr + n);
  }

  /** memcpy into the segment: a byte loop, as module Memcpy proves. */
  method CopyIn(k: Kernel, src: seq<Byte>, ghost s: State, ghost was: Image, ghost at0: map<nat, nat>, addr: nat,
                size: nat,
                keeps: Keeps, ghost image0: Image) returns (ghost image: Image, ghost at: map<nat, nat>)
    requires k.Valid() && Filling(k.Abs(), s, was, at0, addr, PageCount(addr, size), [], keeps, image0, at0)
             && |src| <= size
    modifies k`tlb, k.data
    ensures k.Valid() && Filling(k.Abs(), s, was, at0, addr, PageCount(addr, size), src, keeps, image, at)
  {
    hide *;
    image, at := image0, at0;
    assert src[..0] == [];
    for n := 0 to |src|
      invariant k.Valid() && Filling(k.Abs(), s, was, at0, addr, PageCount(addr, size), src[..n], keeps, image, at)
    {
      AllInside(addr, size, n);
      image, at := StoreNext(k, src[n], s, was, at0, addr, PageCount(addr, size), src[..n], n, keeps, image, at);
      assert src[..n] + [src[n]] == src[..n + 1];
    }
    assert src[..|src|] == src;
  }

  /** memset of the bss to 0. */
  method ClearBss(k: Kernel, bss: nat, ghost s: State, ghost was: Image, ghost at0: map<nat, nat>, addr: nat, size: nat,
                  filled: nat, ghost done: seq<Byte>, keeps: Keeps, ghost image0: Image, ghost at1: map<nat, nat>)
    returns (ghost image: Image, ghost at: map<nat, nat>)
    requires k.Valid() && Filling(k.Abs(), s, was, at0, addr, PageCount(addr, size), done, keeps, image0, at1)
    requires |done| == filled && filled + bss == size
    modifies k`tlb, k.data
    ensures k.Valid() && Filling(k.Abs(), s, was, at0, addr, PageCount(addr, size), done + Zeros(bss), keeps, image, at)
  {
    hide *;
    image, at := image0, at1;
    ZerosAre(done, 0);
    for n := 0 to bss
      invariant k.Valid()
                && Filling(k.Abs(), s, was, at0, addr, PageCount(addr, size), done + Zeros(n), keeps, image, at)
    {
      AllInside(addr, size, filled + n);
      ZerosAre(done, n);
      image, at := StoreNext(k, 0, s, was, at0, addr, PageCount(addr, size), done + Zeros(n), filled + n, keeps,
                             image, at);
    }
  }

  function Zeros(n: nat): (r: seq<Byte>)
    ensures |r| == n && forall i :: 0 <= i < n ==> r[i] == 0
  {
    seq(n, _ => 0)
  }

  lemma ZerosAre(done: seq<Byte>, n: nat)
    ensures done + Zeros(n) + [0] == done + Zeros(n + 1) && done + Zeros(0) == done
  {
  }

  // ----- one segment -----

  /** The header is well formed: its bytes are in the file and its range is in user space. */
  predicate SegmentOk(file: seq<Byte>, seg: Segment) {
    seg.offset + seg.filesz <= |file| && seg.filesz <= seg.memsz && seg.vaddr + seg.memsz <= USER_END
  }

  /** The bytes load_elf stores: a code segment's rest is left to the zero in the frame. */
  function Stored(file: seq<Byte>, seg: Segment): seq<Byte>
    requires SegmentOk(file, seg)
  {
    file[seg.offset..seg.offset + seg.filesz] + (if seg.exec then [] else Zeros(seg.memsz - seg.filesz))
  }

  function SegPages(seg: Segment): nat {
    PageCount(seg.vaddr, seg.memsz)
  }

  lemma SimStart(s: State)
    requires |s.desc| == |s.data| && FIRST_USER_FRAME <= |s.desc| && s.tlb == map[]
    ensures Sim(s, s, [], map[])
  {
  }

  lemma SimKeepsCore(now: State, s: State, image: Image, at: map<nat, nat>)
    requires Core(s) && Sim(now, s, image, at)
    ensures Core(now)
  {
    MapImageKeepsCore(s, image);
    FlushKeepsCore(MapImage(s, image));
    CoreWithoutTlb(now);
  }

  lemma CoreWithoutTlb(s: State)
    requires Core(Flush(s))
    ensures Core(s)
  {
  }

  /** There is room for a segment's pages over the image. */
  lemma SimRoom(now: State, s: State, image: Image, at: map<nat, nat>, n: nat)
    requires Sim(now, s, image, at) && RoomFor(s, |image| + n)
    ensures RoomFor(now, n)
  {
    MapImageConcat(s, image, seq(n, _ => (0, ZERO_PAGE)));
    hide MapImage;
  }

  /** umalloc adds zero pages to the image and leaves the TLB alone. */
  lemma SimMaps(now: State, t: State, s: State, image: Image, at: map<nat, nat>, pages: Image)
    requires Sim(now, s, image, at) && RoomFor(s, |image| + |pages|) && RoomFor(now, |pages|)
    requires t == MapImage(now, pages)
    ensures Sim(t, s, image + pages, at) && OldEntries(image, at)
  {
    MapImageConcat(s, image, pages);
    MapImageFlushed(now, pages);
    MapImageFlushed(MapImage(s, image), pages);
    MapImageUndisturbed(now, pages);
    hide MapImage, InImage, FrameNo;
    assert t.tlb == now.tlb;
  }

  lemma StartFilling(was: Image, at0: map<nat, nat>, addr: nat, count: nat, keeps: Keeps)
    ensures Contents(was, at0, addr, count, [], keeps, was + Pages(addr, count, []))
    ensures Cache(was, at0, addr, count, 0, keeps, at0)
  {
    var image := was + Pages(addr, count, []);
    forall p | Inside(addr, count, p)
      ensures image[Own(|was|, addr, p)] == (p, Landed(p in at0, addr, [], keeps, p))
    {
      NoBytes(addr, p);
      NoneLanded(p in at0, addr, keeps, p);
    }
    hide Landed, Content;
  }

  /** One PT_LOAD header, whatever is cached when it starts. */
  method LoadSegment(k: Kernel, file: seq<Byte>, seg: Segment, keeps: Keeps, ghost s: State, ghost was: Image,
                     ghost at0: map<nat, nat>)
    returns (ghost image: Image, ghost at: map<nat, nat>)
    requires k.Valid() && Core(s) && Sim(k.Abs(), s, was, at0) && RoomFor(s, |was| + SegPages(seg))
             && SegmentOk(file, seg)
    requires k.target == k.cur && DirectRange(k.high, k.cur, seg.vaddr, seg.memsz)
    modifies k`pte, k`dirs, k`tlb, k.desc, k.data
    ensures k.Valid() && Sim(k.Abs(), s, image, at)
    ensures Contents(was, at0, seg.vaddr, SegPages(seg), Stored(file, seg), keeps, image)
    ensures Cache(was, at0, seg.vaddr, SegPages(seg), |Stored(file, seg)|, keeps, at)
  {
    hide *;
    ghost var now := k.Abs();
    SimKeepsCore(now, s, was, at0);
    SimRoom(now, s, was, at0, SegPages(seg));
    SegmentFacts(file, seg);
    ghost var pages := Pages(seg.vaddr, SegPages(seg), []);
    CurLives(k);
    Umalloc(k, seg.vaddr, seg.memsz);
    PagesSize(seg.vaddr, SegPages(seg), []);
    SimMaps(now, k.Abs(), s, was, at0, pages);
    StartFilling(was, at0, seg.vaddr, SegPages(seg), keeps);
    FillingIs(k.Abs(), s, was, at0, seg.vaddr, SegPages(seg), [], keeps, was + pages, at0);
    var src := file[seg.offset..seg.offset + seg.filesz];
    image, at := CopyIn(k, src, s, was, at0, seg.vaddr, seg.memsz, keeps, was + pages);
    if !seg.exec {
      image, at := ClearBss(k, seg.memsz - seg.filesz, s, was, at0, seg.vaddr, seg.memsz, seg.filesz, src, keeps,
                            image, at);
    } else {
      assert src + [] == src;
    }
    FillingIs(k.Abs(), s, was, at0, seg.vaddr, SegPages(seg), Stored(file, seg), keeps, image, at);
  }

  lemma CurLives(k: Kernel)
    requires k.Valid()
    ensures k.cur in k.mms
  {
  }

  lemma PagesSize(addr: nat, count: nat, bytes: seq<Byte>)
    ensures |Pages(addr, count, bytes)| == count
  {
  }

  lemma FillingIs(now: State, s: State, was: Image, at0: map<nat, nat>, addr: nat, count: nat, done: seq<Byte>,
                  keeps: Keeps, image: Image, at: map<nat, nat>)
    ensures Filling(now, s, was, at0, addr, count, done, keeps, image, at) <==>
            && Sim(now, s, image, at) && OldEntries(was, at0)
            && Contents(was, at0, addr, count, done, keeps, image) && Cache(was, at0, addr, count, |done|, keeps, at)
  {
  }

  lemma SegmentFacts(file: seq<Byte>, seg: Segment)
    requires SegmentOk(file, seg)
    ensures SegPages(seg) == PageCount(seg.vaddr, seg.memsz)
    ensures seg.offset + seg.filesz <= |file| && seg.filesz <= seg.memsz && seg.vaddr + seg.memsz <= USER_END
    ensures Stored(file, seg) ==
            file[seg.offset..seg.offset + seg.filesz] + (if seg.exec then [] else Zeros(seg.memsz - seg.filesz))
  {
    hide PageCount, Zeros;
  }

  // ----- all segments -----

  predicate AllOk(file: seq<Byte>, segs: seq<Segment>) {
    forall i {:trigger segs[i]} :: 0 <= i < |segs| && segs[i].load ==> SegmentOk(file, segs[i])
  }

  /** map_virmem_to_phymem reaches the tables of every page that a loadable header covers. */
  ghost predicate DirectSegments(high: set<Dir>, pid: nat, segs: seq<Segment>) {
    forall i {:trigger segs[i]} :: 0 <= i < |segs| && segs[i].load ==>
      DirectRange(high, pid, segs[i].vaddr, segs[i].memsz)
  }

  lemma SegmentIsDirect(high: set<Dir>, pid: nat, segs: seq<Segment>, n: nat)
    requires DirectSegments(high, pid, segs) && n < |segs| && segs[n].load
    ensures DirectRange(high, pid, segs[n].vaddr, segs[n].memsz)
  {
  }

  function StoredLen(seg: Segment): nat {
    if seg.exec then seg.filesz else seg.memsz
  }

  /** How many pages the first n headers map. */
  function Before(segs: seq<Segment>, n: nat): nat
    requires n <= |segs|
  {
    if n == 0 then 0 else Before(segs, n - 1) + (if segs[n - 1].load then SegPages(segs[n - 1]) else 0)
  }

  /** umalloc maps the page for header m. */
  predicate Covered(segs: seq<Segment>, m: nat, p: nat)
    requires m < |segs|
  {
    segs[m].load && Inside(segs[m].vaddr, SegPages(segs[m]), p)
  }

  /** Some header from lo on and before hi maps the page. */
  predicate CoveredIn(segs: seq<Segment>, lo: nat, hi: nat, p: nat)
    requires hi <= |segs|
  {
    exists j {:trigger Covered(segs, j, p)} :: lo <= j < hi && Covered(segs, j, p)
  }

  /** Which entry of the image header m's page is. */
  function At(segs: seq<Segment>, m: nat, p: nat): nat
    requires m < |segs|
  {
    Own(Before(segs, m), segs[m].vaddr, p)
  }

  /** The TLB holds a translation of the page when header n's turn comes. */
  predicate Cached(segs: seq<Segment>, keeps: nat -> Keeps, n: nat, p: nat)
    requires n <= |segs|
  {
    if n == 0 then false
    else if segs[n - 1].load then
      InTlb(Cached(segs, keeps, n - 1, p), segs[n - 1].vaddr, StoredLen(segs[n - 1]), keeps(n - 1), p)
    else Cached(segs, keeps, n - 1, p)
  }

  /** The image after n headers: their pages in order, and in the last entry of a page what has landed
      there of that header's bytes. */
  ghost predicate LoadedImage(file: seq<Byte>, segs: seq<Segment>, keeps: nat -> Keeps, n: nat, image: Image)
    requires n <= |segs| && AllOk(file, segs)
  {
    && |image| == Before(segs, n)
    && forall m, p {:trigger Covered(segs, m, p)} :: 0 <= m < n && Covered(segs, m, p) ==>
         && At(segs, m, p) < |image| && image[At(segs, m, p)].0 == p
         && (!CoveredIn(segs, m + 1, n, p) ==>
               image[At(segs, m, p)].1 ==
               Landed(Cached(segs, keeps, m, p), segs[m].vaddr, Stored(file, segs[m]), keeps(m), p))
  }

  ghost predicate CacheIs(segs: seq<Segment>, keeps: nat -> Keeps, n: nat, at: map<nat, nat>)
    requires n <= |segs|
  {
    forall p: nat {:trigger p in at} :: p in at <==> Cached(segs, keeps, n, p)
  }

  lemma {:induction false} BeforeGrows(segs: seq<Segment>, m: nat, n: nat)
    requires m <= n <= |segs|
    ensures Before(segs, m) <= Before(segs, n)
    decreases n
  {
    if m < n {
      BeforeGrows(segs, m, n - 1);
    }
  }

  lemma EntryBefore(segs: seq<Segment>, m: nat, n: nat, p: nat)
    requires m < n <= |segs| && Covered(segs, m, p)
    ensures Before(segs, m) <= At(segs, m, p) < Before(segs, n)
  {
    BeforeGrows(segs, m + 1, n);
    hide SegPages;
  }

  /** Stores of a segment never touch another page's translation. */
  lemma {:induction false} OutsideUntouched(was: bool, addr: nat, size: nat, n: nat, keeps: Keeps, p: nat)
    requires n <= size && !Inside(addr, PageCount(addr, size), p)
    ensures InTlb(was, addr, n, keeps, p) == was
    decreases n
  {
    if n > 0 {
      OutsideUntouched(was, addr, size, n - 1, keeps, p);
      AllInside(addr, size, n - 1);
    }
  }

  lemma StoredLenIs(file: seq<Byte>, seg: Segment)
    requires SegmentOk(file, seg)
    ensures |Stored(file, seg)| == StoredLen(seg) <= seg.memsz
  {
    hide Zeros;
  }

  lemma CoveredMore(segs: seq<Segment>, m: nat, n: nat, p: nat)
    requires m < n < |segs|
    ensures CoveredIn(segs, m + 1, n + 1, p) <==> CoveredIn(segs, m + 1, n, p) || Covered(segs, n, p)
  {
    hide Covered;
  }

  lemma LoadedNext(file: seq<Byte>, segs: seq<Segment>, keeps: nat -> Keeps, n: nat, was: Image, at0: map<nat, nat>,
                   image: Image)
    requires n < |segs| && AllOk(file, segs) && segs[n].load
    requires LoadedImage(file, segs, keeps, n, was) && CacheIs(segs, keeps, n, at0)
    requires Contents(was, at0, segs[n].vaddr, SegPages(segs[n]), Stored(file, segs[n]), keeps(n), image)
    ensures LoadedImage(file, segs, keeps, n + 1, image)
  {
    var seg := segs[n];
    forall m, p | 0 <= m < n + 1 && Covered(segs, m, p)
      ensures At(segs, m, p) < |image| && image[At(segs, m, p)].0 == p
      ensures !CoveredIn(segs, m + 1, n + 1, p) ==>
                image[At(segs, m, p)].1 ==
                Landed(Cached(segs, keeps, m, p), segs[m].vaddr, Stored(file, segs[m]), keeps(m), p)
    {
      if m < n {
        EntryBefore(segs, m, n, p);
        CoveredMore(segs, m, n, p);
        assert image[At(segs, m, p)].0 == was[At(segs, m, p)].0;
      } else {
        assert Inside(seg.vaddr, SegPages(seg), p);
        EntryBefore(segs, n, n + 1, p);
        assert (p in at0) == Cached(segs, keeps, n, p);
      }
    }
    hide Landed, Stored, SegPages, Inside, Cached, Covered, CoveredIn, SegmentOk;
  }

  lemma CacheNextSegment(file: seq<Byte>, segs: seq<Segment>, keeps: nat -> Keeps, n: nat, was: Image,
                         at0: map<nat, nat>, at: map<nat, nat>)
    requires n < |segs| && AllOk(file, segs) && segs[n].load && CacheIs(segs, keeps, n, at0)
    requires Cache(was, at0, segs[n].vaddr, SegPages(segs[n]), |Stored(file, segs[n])|, keeps(n), at)
    ensures CacheIs(segs, keeps, n + 1, at)
  {
    var seg := segs[n];
    StoredLenIs(file, seg);
    forall p: nat
      ensures p in at <==> Cached(segs, keeps, n + 1, p)
    {
      if !Inside(seg.vaddr, SegPages(seg), p) {
        OutsideUntouched(Cached(segs, keeps, n, p), seg.vaddr, seg.memsz, StoredLen(seg), keeps(n), p);
      }
      assert (p in at0) == Cached(segs, keeps, n, p);
    }
    hide InTlb, Stale, Own, Stored, SegmentOk;
  }

  lemma SkipNext(file: seq<Byte>, segs: seq<Segment>, keeps: nat -> Keeps, n: nat, image: Image, at: map<nat, nat>)
    requires n < |segs| && AllOk(file, segs) && !segs[n].load
    requires LoadedImage(file, segs, keeps, n, image) && CacheIs(segs, keeps, n, at)
    ensures LoadedImage(file, segs, keeps, n + 1, image) && CacheIs(segs, keeps, n + 1, at)
  {
    forall m, p | 0 <= m < n && Covered(segs, m, p)
      ensures CoveredIn(segs, m + 1, n + 1, p) == CoveredIn(segs, m + 1, n, p)
    {
      CoveredMore(segs, m, n, p);
    }
    forall p: nat
      ensures p in at <==> Cached(segs, keeps, n + 1, p)
    {
      assert (p in at) == Cached(segs, keeps, n, p);
    }
    hide Landed, Stored, SegPages, Inside, InTlb, CoveredIn, SegmentOk;
  }

  // ----- the loop -----

  /** The mm_struct fields that load_elf sets. */
  datatype Layout = Layout(startCode: nat, endCode: nat, startData: nat, endData: nat, bss: nat)

  function Placed(lay: Layout, seg: Segment): Layout
    requires seg.filesz <= seg.memsz
  {
    if seg.exec then lay.(startCode := seg.vaddr, endCode := seg.vaddr + seg.memsz)
    else lay.(startData := seg.vaddr, endData := seg.vaddr + seg.filesz, bss := seg.memsz - seg.filesz)
  }

  function LayoutOf(file: seq<Byte>, segs: seq<Segment>, lay: Layout): Layout
    requires AllOk(file, segs)
  {
    if segs == [] then lay else LayoutOf(file, segs[1..], if segs[0].load then Placed(lay, segs[0]) else lay)
  }

  lemma LayoutFront(file: seq<Byte>, segs: seq<Segment>, n: nat, lay: Layout)
    requires AllOk(file, segs) && n < |segs|
    ensures AllOk(file, segs[n..]) && AllOk(file, segs[n + 1..])
    ensures segs[n].load ==> segs[n].filesz <= segs[n].memsz
    ensures LayoutOf(file, segs[n..], lay) ==
            LayoutOf(file, segs[n + 1..], if segs[n].load then Placed(lay, segs[n]) else lay)
  {
    assert segs[n..][0] == segs[n] && segs[n..][1..] == segs[n + 1..];
  }

  predicate AnyLoad(segs: seq<Segment>) {
    exists i {:trigger segs[i]} :: 0 <= i < |segs| && segs[i].load
  }

  lemma AnyLoadNext(segs: seq<Segment>, n: nat)
    requires n < |segs|
    ensures AnyLoad(segs[..n + 1]) <==> AnyLoad(segs[..n]) || segs[n].load
  {
    if AnyLoad(segs[..n]) {
      var i :| 0 <= i < n && segs[..n][i].load;
      assert segs[..n + 1][i] == segs[..n][i];
    }
    assert segs[..n + 1][n] == segs[n];
    assert forall i :: 0 <= i < n ==> segs[..n + 1][i] == segs[..n][i];
  }

  /** The first n headers are loaded over s. */
  ghost predicate Loading(now: State, s: State, file: seq<Byte>, segs: seq<Segment>, keeps: nat -> Keeps, n: nat,
                          image: Image, at: map<nat, nat>) {
    && n <= |segs| && AllOk(file, segs) && Core(s) && RoomFor(s, Before(segs, |segs|))
    && Sim(now, s, image, at) && LoadedImage(file, segs, keeps, n, image) && CacheIs(segs, keeps, n, at)
  }

  lemma NothingLoaded(s: State, file: seq<Byte>, segs: seq<Segment>, keeps: nat -> Keeps)
    requires AllOk(file, segs) && Core(s) && RoomFor(s, Before(segs, |segs|)) && s.tlb == map[]
    ensures Loading(s, s, file, segs, keeps, 0, [], map[])
  {
    SimStart(s);
    hide Core, MapImage, AllOk, Sim;
  }

  lemma SegmentFits(now: State, s: State, file: seq<Byte>, segs: seq<Segment>, keeps: nat -> Keeps, n: nat,
                    image: Image, at: map<nat, nat>)
    requires Loading(now, s, file, segs, keeps, n, image, at) && n < |segs| && segs[n].load
    ensures Core(s) && Sim(now, s, image, at) && RoomFor(s, |image| + SegPages(segs[n])) && SegmentOk(file, segs[n])
  {
    BeforeGrows(segs, n + 1, |segs|);
    hide Core, MapImage, Sim, SegPages, SegmentOk, CacheIs, Covered;
  }

  lemma SegmentLoaded(now: State, t: State, s: State, file: seq<Byte>, segs: seq<Segment>, keeps: nat -> Keeps, n: nat,
                      was: Image, at0: map<nat, nat>, image: Image, at: map<nat, nat>)
    requires Loading(now, s, file, segs, keeps, n, was, at0) && n < |segs| && segs[n].load && Sim(t, s, image, at)
    requires SegmentOk(file, segs[n])
    requires Contents(was, at0, segs[n].vaddr, SegPages(segs[n]), Stored(file, segs[n]), keeps(n), image)
    requires Cache(was, at0, segs[n].vaddr, SegPages(segs[n]), |Stored(file, segs[n])|, keeps(n), at)
    ensures Loading(t, s, file, segs, keeps, n + 1, image, at)
  {
    LoadedNext(file, segs, keeps, n, was, at0, image);
    CacheNextSegment(file, segs, keeps, n, was, at0, at);
    hide Core, MapImage, Sim, SegPages, SegmentOk, AllOk, LoadedImage, CacheIs, Contents, Cache, RoomFor;
  }

  lemma SegmentSkipped(now: State, s: State, file: seq<Byte>, segs: seq<Segment>, keeps: nat -> Keeps, n: nat,
                       image: Image, at: map<nat, nat>)
    requires Loading(now, s, file, segs, keeps, n, image, at) && n < |segs| && !segs[n].load
    ensures Loading(now, s, file, segs, keeps, n + 1, image, at)
  {
    SkipNext(file, segs, keeps, n, image, at);
    hide Core, MapImage, Sim, AllOk, LoadedImage, CacheIs, RoomFor;
  }

  /** One round of load_elf's loop. */
  method LoadNext(k: Kernel, file: seq<Byte>, segs: seq<Segment>, keeps: nat -> Keeps, n: nat, lay: Layout,
                  ghost s: State, ghost was: Image, ghost at0: map<nat, nat>)
    returns (lay': Layout, ghost image: Image, ghost at: map<nat, nat>)
    requires k.Valid() && n < |segs| && AllOk(file, segs) && Loading(k.Abs(), s, file, segs, keeps, n, was, at0)
    requires k.target == k.cur && DirectSegments(k.high, k.cur, segs)
    modifies k`pte, k`dirs, k`tlb, k.desc, k.data
    ensures k.Valid() && Loading(k.Abs(), s, file, segs, keeps, n + 1, image, at)
    ensures AllOk(file, segs[n..]) && AllOk(file, segs[n + 1..])
    ensures LayoutOf(file, segs[n..], lay) == LayoutOf(file, segs[n + 1..], lay')
  {
    hide *;
    ghost var now := k.Abs();
    LayoutFront(file, segs, n, lay);
    if segs[n].load {
      SegmentFits(now, s, file, segs, keeps, n, was, at0);
      SegmentIsDirect(k.high, k.cur, segs, n);
      image, at := LoadSegment(k, file, segs[n], keeps(n), s, was, at0);
      SegmentLoaded(now, k.Abs(), s, file, segs, keeps, n, was, at0, image, at);
      lay' := Placed(lay, segs[n]);
    } else {
      image, at := was, at0;
      SegmentSkipped(now, s, file, segs, keeps, n, was, at0);
      lay' := lay;
    }
  }

  method LoadSegments(k: Kernel, file: seq<Byte>, segs: seq<Segment>, keeps: nat -> Keeps, lay0: Layout, ghost s: State)
    returns (ret: int, lay: Layout, ghost image: Image, ghost at: map<nat, nat>)
    requires k.Valid() && AllOk(file, segs) && Loading(k.Abs(), s, file, segs, keeps, 0, [], map[])
    requires k.target == k.cur && DirectSegments(k.high, k.cur, segs)
    modifies k`pte, k`dirs, k`tlb, k.desc, k.data
    ensures k.Valid() && Loading(k.Abs(), s, file, segs, keeps, |segs|, image, at)
    ensures ret == (if AnyLoad(segs) then 0 else -1) && lay == LayoutOf(file, segs, lay0)
  {
    hide *;
    lay, image, at := lay0, [], map[];
    var m, i := 0, 0;
    LoopEnds(file, segs);
    while i < |segs|
      invariant 0 <= i <= |segs| && 0 <= m && (m > 0 <==> AnyLoad(segs[..i]))
      invariant AllOk(file, segs[i..]) && LayoutOf(file, segs, lay0) == LayoutOf(file, segs[i..], lay)
      invariant k.Valid() && Loading(k.Abs(), s, file, segs, keeps, i, image, at)
    {
      AnyLoadNext(segs, i);
      lay, image, at := LoadNext(k, file, segs, keeps, i, lay, s, image, at);
      if segs[i].load {
        m := m + 1;
      }
      i := i + 1;
    }
    ret := if m == 0 then -1 else 0;
  }

  lemma LoopEnds(file: seq<Byte>, segs: seq<Segment>)
    requires AllOk(file, segs)
    ensures segs[0..] == segs && segs[..|segs|] == segs && !AnyLoad(segs[..0])
    ensures AllOk(file, segs[|segs|..])
    ensures forall lay {:trigger LayoutOf(file, segs[|segs|..], lay)} :: LayoutOf(file, segs[|segs|..], lay) == lay
  {
  }

  /** load_elf, for every choice of what the TLB keeps; its caller has just emptied it. */
  method LoadElf(k: Kernel, found: Option<seq<Byte>>, segs: seq<Segment>, keeps: nat -> Keeps, lay0: Layout)
    returns (ret: int, lay: Layout, ghost image: Image)
    requires k.Valid() && Core(k.Abs()) && k.tlb == map[]
    requires k.target == k.cur && DirectSegments(k.high, k.cur, segs)
    requires found.Some? ==> AllOk(found.value, segs) && RoomFor(k.Abs(), Before(segs, |segs|))
    modifies k`pte, k`dirs, k`tlb, k.desc, k.data
    ensures k.Valid() && Core(k.Abs()) && RoomFor(old(k.Abs()), |image|)
    ensures Flush(k.Abs()) == Flush(MapImage(old(k.Abs()), image))
    ensures ret == if found.Some? && AnyLoad(segs) then 0 else -1
    ensures found.Some? ==> AllOk(found.value, segs) && LoadedImage(found.value, segs, keeps, |segs|, image)
    ensures found.Some? ==> lay == LayoutOf(found.value, segs, lay0)
    ensures found.None? ==> image == [] && lay == lay0
  {
    if found.None? {
      CoreIsSized(k.Abs());
      hide Core;
      return -1, lay0, [];
    }
    hide *;
    TlbOf(k);
    ghost var s := k.Abs();
    NothingLoaded(s, found.value, segs, keeps);
    ghost var at: map<nat, nat>;
    ret, lay, image, at := LoadSegments(k, found.value, segs, keeps, lay0, s);
    AllLoaded(k.Abs(), s, found.value, segs, keeps, image, at);
  }

  lemma AllLoaded(now: State, s: State, file: seq<Byte>, segs: seq<Segment>, keeps: nat -> Keeps, image: Image,
                  at: map<nat, nat>)
    requires Loading(now, s, file, segs, keeps, |segs|, image, at)
    ensures Core(now) && AllOk(file, segs) && RoomFor(s, |image|) && Flush(now) == Flush(MapImage(s, image))
    ensures LoadedImage(file, segs, keeps, |segs|, image)
  {
    SimKeepsCore(now, s, image, at);
    hide Core, LoadedImage, RoomFor;
  }

  lemma TlbOf(k: Kernel)
    ensures k.Abs().tlb == k.tlb
  {
  }
}
