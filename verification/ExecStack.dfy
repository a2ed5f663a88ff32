/** do_execv's stack page: strings from the top down, then the pointer arrays and argc below them,
    all written at a scratch address and relocated to the page under STACK_TOP. */
module ExecStack {
  import opened Addresses
  import opened Options

  type Byte = n: nat | n < 256
  /** A C string without its terminator. */
  type Str = seq<Byte>

  /** DO_EXECV_TMP_ADDR_TRANSLATE: the user address of an offset into the scratch page. */
  function UserAddr(offset: nat): nat {
    STACK_TOP - PAGE_SIZE + offset
  }

  // ----- words -----

  function LittleEndian(v: nat, n: nat): (r: seq<Byte>)
    ensures |r| == n
  {
    if n == 0 then [] else [v % 256] + LittleEndian(v / 256, n - 1)
  }

  function FromBytes(s: seq<Byte>): nat {
    if s == [] then 0 else s[0] + 256 * FromBytes(s[1..])
  }

  function Power256(n: nat): nat {
    if n == 0 then 1 else 256 * Power256(n - 1)
  }

  lemma {:induction false} WordRoundTrip(v: nat, n: nat)
    requires v < Power256(n)
    ensures FromBytes(LittleEndian(v, n)) == v
    decreases n
  {
    if n > 0 {
      WordRoundTrip(v / 256, n - 1);
      assert LittleEndian(v, n)[1..] == LittleEndian(v / 256, n - 1);
    }
  }

  function ReadWord(page: seq<Byte>, at: nat): nat
    requires at + 8 <= |page|
  {
    FromBytes(page[at..at + 8])
  }

  lemma EightBytes(v: nat)
    requires v < 0x1_0000_0000_0000_0000
    ensures FromBytes(LittleEndian(v, 8)) == v
  {
    assert Power256(4) == 0x1_0000_0000;
    assert Power256(8) == 256 * (256 * (256 * (256 * Power256(4))));
    WordRoundTrip(v, 8);
  }

  /** A 64-bit store. */
  method StoreWord(page: array<Byte>, at: nat, v: nat)
    requires at + 8 <= page.Length && v < 0x1_0000_0000_0000_0000
    modifies page
    ensures ReadWord(page[..], at) == v
    ensures page[..at] == old(page[..at]) && page[at + 8..] == old(page[at + 8..])
  {
    var bytes := LittleEndian(v, 8);
    EightBytes(v);
    for k := 0 to 8
      invariant page[at..at + k] == bytes[..k]
      invariant page[..at] == old(page[..at]) && page[at + 8..] == old(page[at + 8..])
    {
      page[at + k] := bytes[k];
    }
    assert page[..][at..at + 8] == page[at..at + 8] == bytes;
  }

  // ----- strings -----

  predicate NoNul(s: Str) {
    forall i :: 0 <= i < |s| ==> s[i] != 0
  }

  /** What a C program reads at an offset: the bytes up to the first zero. */
  function ReadString(page: seq<Byte>, at: nat): Str
    decreases |page| - at
  {
    if at >= |page| || page[at] == 0 then [] else [page[at]] + ReadString(page, at + 1)
  }

  /** s stands at the offset with its terminator behind it. */
  predicate HoldsString(page: seq<Byte>, at: nat, s: Str) {
    at + |s| < |page| && page[at..at + |s|] == s && page[at + |s|] == 0
  }

  lemma {:induction false} HeldIsRead(page: seq<Byte>, at: nat, s: Str)
    requires HoldsString(page, at, s) && NoNul(s)
    ensures ReadString(page, at) == s
    decreases |s|
  {
    if s != [] {
      assert page[at] == page[at..at + |s|][0] == s[0];
      assert page[at + 1..at + 1 + |s[1..]|] == s[1..];
      HeldIsRead(page, at + 1, s[1..]);
    }
  }

  /** The bytes a list of strings takes, one terminator each. */
  function Total(strs: seq<Str>): nat {
    if strs == [] then 0 else Total(strs[..|strs| - 1]) + |strs[|strs| - 1]| + 1
  }

  lemma {:induction false} TotalConcat(a: seq<Str>, b: seq<Str>)
    ensures Total(a + b) == Total(a) + Total(b)
    decreases |b|
  {
    if b == [] {
      assert a + b == a;
    } else {
      assert (a + b)[..|a + b| - 1] == a + b[..|b| - 1];
      TotalConcat(a, b[..|b| - 1]);
    }
  }

  predicate HoldsStrings(page: seq<Byte>, ptrs: seq<nat>, strs: seq<Str>) {
    |ptrs| == |strs| && forall i {:trigger ptrs[i]} {:trigger strs[i]} :: 0 <= i < |strs| ==>
        HoldsString(page, ptrs[i], strs[i])
  }

  lemma StringKept(p: seq<Byte>, q: seq<Byte>, from: nat, at: nat, s: Str)
    requires HoldsString(p, at, s) && from <= at && |q| == |p| && q[from..] == p[from..]
    ensures HoldsString(q, at, s)
  {
    assert forall k :: from <= k < |p| ==> q[k] == q[from..][k - from] == p[k];
  }

  lemma StringsKept(p: seq<Byte>, q: seq<Byte>, from: nat, ptrs: seq<nat>, strs: seq<Str>)
    requires HoldsStrings(p, ptrs, strs) && |q| == |p| && from <= |p| && q[from..] == p[from..]
    requires forall i :: 0 <= i < |ptrs| ==> from <= ptrs[i]
    ensures HoldsStrings(q, ptrs, strs)
  {
    forall i | 0 <= i < |strs|
      ensures HoldsString(q, ptrs[i], strs[i])
    {
      StringKept(p, q, from, ptrs[i], strs[i]);
    }
  }

  /** One string, copied byte by byte below rsp, with the terminator of its lower neighbour. */
  method PushString(page: array<Byte>, rsp: nat, s: Str) returns (at: nat)
    requires |s| + 1 <= rsp < page.Length && page[rsp] == 0
    modifies page
    ensures at == rsp - |s| && HoldsString(page[..], at, s) && page[at - 1] == 0
    ensures page[..at - 1] == old(page[..at - 1]) && page[rsp..] == old(page[rsp..])
  {
    at := rsp - |s|;
    var r := at;
    var j := 0;
    while j < |s|
      invariant 0 <= j <= |s| && r == at + j
      invariant page[at..r] == s[..j]
      invariant page[..at] == old(page[..at]) && page[rsp..] == old(page[rsp..])
    {
      page[r] := s[j];
      r, j := r + 1, j + 1;
    }
    r := r - |s|;
    assert page[rsp] == page[rsp..][0] == 0;
    assert page[..][at..at + |s|] == s;
    page[r - 1] := 0;
    assert page[..][at..at + |s|] == s;
    assert page[rsp..] == old(page[rsp..]);
  }

  /** The strings stand one behind the other. */
  ghost predicate Consecutive(ptrs: seq<nat>, strs: seq<Str>, at: nat) {
    |ptrs| == |strs| && forall i {:trigger ptrs[i]} :: 0 <= i < |ptrs| ==> ptrs[i] == at + Total(strs[..i])
  }

  lemma ConsecutiveCons(s: Str, ptrs: seq<nat>, strs: seq<Str>, at: nat)
    requires Consecutive(ptrs, strs, at + |s| + 1)
    ensures Consecutive([at] + ptrs, [s] + strs, at)
  {
    forall i | 0 < i <= |ptrs|
      ensures Total(([s] + strs)[..i]) == |s| + 1 + Total(strs[..i - 1])
    {
      assert ([s] + strs)[..i] == [s] + strs[..i - 1];
      TotalCons(s, strs[..i - 1]);
    }
    assert ([s] + strs)[..0] == [];
    hide Total;
    NoTotal();
  }

  lemma NoTotal()
    ensures Total([]) == 0
  {
  }

  /** The strings strs have been laid out from rsp0 down to rsp, the first one lowest. */
  ghost predicate Pushed(page: seq<Byte>, rsp0: nat, rsp: nat, ptrs: seq<nat>, strs: seq<Str>) {
    && rsp + Total(strs) == rsp0 < |page| && page[rsp] == 0
    && HoldsStrings(page, ptrs, strs)
    && (forall i :: 0 <= i < |ptrs| ==> rsp < ptrs[i] <= rsp0)
    && Consecutive(ptrs, strs, rsp + 1)
  }

  /** Only bytes in [lo, hi) differ. */
  ghost predicate SameOutside(p: seq<Byte>, q: seq<Byte>, lo: nat, hi: nat) {
    |p| == |q| && lo <= hi <= |p| && q[..lo] == p[..lo] && q[hi..] == p[hi..]
  }

  lemma OutsideWidens(p: seq<Byte>, q: seq<Byte>, r: seq<Byte>, lo: nat, mid: nat, hi: nat)
    requires SameOutside(p, q, mid, hi) && SameOutside(q, r, lo, mid)
    ensures SameOutside(p, r, lo, hi)
  {
    KeepAbove(q, r, mid);
    assert r[hi..] == q[hi..];
    assert p[..lo] == p[..mid][..lo] && q[..lo] == q[..mid][..lo];
  }

  /** One round of set_params_to_stack. */
  method PushNext(page: array<Byte>, rsp0: nat, rsp: nat, ptrs: seq<nat>, s: Str, ghost rest: seq<Str>)
    returns (rsp': nat, ptrs': seq<nat>)
    requires Pushed(page[..], rsp0, rsp, ptrs, rest) && |s| + 1 <= rsp
    modifies page
    ensures Pushed(page[..], rsp0, rsp', ptrs', [s] + rest) && rsp' == rsp - |s| - 1
    ensures SameOutside(old(page[..]), page[..], rsp', rsp)
  {
    ghost var was := page[..];
    var at := PushString(page, rsp, s);
    rsp', ptrs' := at - 1, [at] + ptrs;
    hide HoldsString, Total;
    assert was[rsp..] == page[..][rsp..] && was[..rsp'] == page[..][..rsp'];
    StringsKept(was, page[..], rsp, ptrs, rest);
    PrependString(page[..], at, s, ptrs, rest);
    TotalCons(s, rest);
    ConsecutiveCons(s, ptrs, rest, at);
  }

  lemma TotalCons(s: Str, rest: seq<Str>)
    ensures Total([s] + rest) == |s| + 1 + Total(rest)
  {
    TotalConcat([s], rest);
    assert Total([s]) == Total([]) + |s| + 1;
  }

  /** set_params_to_stack: last string first, each pointer replaced by where its string went. */
  method SetParamsToStack(page: array<Byte>, rsp0: nat, params: seq<Str>) returns (rsp: nat, ptrs: seq<nat>)
    requires Total(params) <= rsp0 < page.Length && page[rsp0] == 0
    modifies page
    ensures Pushed(page[..], rsp0, rsp, ptrs, params) && SameOutside(old(page[..]), page[..], rsp, rsp0)
  {
    hide *;
    rsp, ptrs := rsp0, [];
    var i := |params|;
    NonePushed(page[..], rsp0);
    assert params[..i] == params && params[i..] == [];
    while i > 0
      invariant 0 <= i <= |params| && Total(params[..i]) <= rsp
      invariant Pushed(page[..], rsp0, rsp, ptrs, params[i..]) && SameOutside(old(page[..]), page[..], rsp, rsp0)
    {
      ghost var was, above := page[..], rsp;
      ghost var rest := params[i..];
      i := i - 1;
      TotalFront(params, i + 1);
      assert [params[i]] + rest == params[i..];
      rsp, ptrs := PushNext(page, rsp0, rsp, ptrs, params[i], rest);
      OutsideWidens(old(page[..]), was, page[..], rsp, above, rsp0);
    }
    assert params[i..] == params;
  }

  lemma NonePushed(page: seq<Byte>, rsp0: nat)
    requires rsp0 < |page| && page[rsp0] == 0
    ensures Pushed(page, rsp0, rsp0, [], []) && SameOutside(page, page, rsp0, rsp0)
  {
  }

  lemma TotalFront(params: seq<Str>, i: nat)
    requires 0 < i <= |params|
    ensures Total(params[..i]) == Total(params[..i - 1]) + |params[i - 1]| + 1
  {
    assert params[..i][..i - 1] == params[..i - 1];
  }

  lemma KeepAbove(p: seq<Byte>, q: seq<Byte>, from: nat)
    requires |p| == |q| && from <= |p| && q[from..] == p[from..]
    ensures forall k :: from <= k < |p| ==> q[k] == p[k]
  {
    assert forall k :: from <= k < |p| ==> q[k] == q[from..][k - from] == p[k];
  }

  lemma PrependString(page: seq<Byte>, at: nat, s: Str, ptrs: seq<nat>, strs: seq<Str>)
    requires HoldsString(page, at, s) && HoldsStrings(page, ptrs, strs)
    ensures HoldsStrings(page, [at] + ptrs, [s] + strs)
  {
  }

  // ----- the pointer arrays -----

  /** The words stand at consecutive addresses. */
  ghost predicate HoldsWords(page: seq<Byte>, at: nat, words: seq<nat>) {
    at + 8 * |words| <= |page| && forall k {:trigger words[k]} :: 0 <= k < |words| ==>
        ReadWord(page, at + 8 * k) == words[k]
  }

  /** The words written so far stand at the address, below the limit; nothing else has changed. */
  ghost predicate Table(was: seq<Byte>, now: seq<Byte>, at: nat, limit: nat, words: seq<nat>) {
    at + 8 * |words| == limit && HoldsWords(now, at, words) && SameOutside(was, now, at, limit)
  }

  lemma WordKept(p: seq<Byte>, q: seq<Byte>, from: nat, at: nat)
    requires |p| == |q| && from <= at && at + 8 <= |p| && q[from..] == p[from..]
    ensures ReadWord(q, at) == ReadWord(p, at)
  {
    assert q[at..at + 8] == q[from..][at - from..at + 8 - from] == p[from..][at - from..at + 8 - from] == p[at..at + 8];
  }

  lemma TableGrows(was: seq<Byte>, p: seq<Byte>, q: seq<Byte>, at: nat, limit: nat, words: seq<nat>, v: nat)
    requires Table(was, p, at, limit, words) && at >= 8 && SameOutside(p, q, at - 8, at) && ReadWord(q, at - 8) == v
    ensures Table(was, q, at - 8, limit, [v] + words)
  {
    forall k | 0 <= k < |words| + 1
      ensures ReadWord(q, at - 8 + 8 * k) == ([v] + words)[k]
    {
      if k > 0 {
        WordKept(p, q, at, at + 8 * (k - 1));
        assert ReadWord(p, at + 8 * (k - 1)) == words[k - 1];
      }
    }
    OutsideWidens(was, p, q, at - 8, at, limit);
  }

  /** Store one word below the table. */
  method PushWord(page: array<Byte>, at: nat, v: nat, ghost was: seq<Byte>, ghost limit: nat, ghost words: seq<nat>)
    requires Table(was, page[..], at, limit, words) && at >= 8 && v < 0x1_0000_0000_0000_0000
    modifies page
    ensures Table(was, page[..], at - 8, limit, [v] + words)
  {
    ghost var p := page[..];
    assert at <= page.Length;
    StoreWord(page, at - 8, v);
    assert page[..][..at - 8] == p[..at - 8] && page[..][at..] == p[at..];
    TableGrows(was, p, page[..], at, limit, words, v);
  }

  function UserAddrs(ptrs: seq<nat>): (r: seq<nat>)
    ensures |r| == |ptrs| && forall i {:trigger r[i]} :: 0 <= i < |r| ==> r[i] == UserAddr(ptrs[i])
  {
    if ptrs == [] then [] else [UserAddr(ptrs[0])] + UserAddrs(ptrs[1..])
  }

  /** The pointer loops of do_execv: the array from its last element down. */
  method PushPointers(page: array<Byte>, at0: nat, ptrs: seq<nat>, ghost was: seq<Byte>, ghost limit: nat,
                      ghost words: seq<nat>)
    returns (at: nat)
    requires Table(was, page[..], at0, limit, words) && at0 >= 8 * |ptrs|
    requires forall i :: 0 <= i < |ptrs| ==> ptrs[i] < PAGE_SIZE
    modifies page
    ensures at == at0 - 8 * |ptrs| && Table(was, page[..], at, limit, UserAddrs(ptrs) + words)
  {
    hide *;
    at := at0;
    var n := |ptrs|;
    ghost var addrs := UserAddrs(ptrs);
    assert addrs[n..] + words == words;
    while n > 0
      invariant 0 <= n <= |ptrs| && at == at0 - 8 * (|ptrs| - n)
      invariant Table(was, page[..], at, limit, addrs[n..] + words)
    {
      n := n - 1;
      AddrAt(ptrs, n);
      PushWord(page, at, UserAddr(ptrs[n]), was, limit, addrs[n + 1..] + words);
      assert [addrs[n]] + (addrs[n + 1..] + words) == addrs[n..] + words;
      at := at - 8;
    }
    assert addrs[n..] == addrs;
  }

  lemma AddrAt(ptrs: seq<nat>, n: nat)
    requires n < |ptrs| && ptrs[n] < PAGE_SIZE
    ensures UserAddrs(ptrs)[n] == UserAddr(ptrs[n]) < 0x1_0000_0000_0000_0000
  {
  }

  // ----- do_execv -----

  /** argc, the pointers and the NULLs: one, or two if there is an environment. */
  function WordCount(argc: nat, envc: nat): nat {
    argc + envc + (if envc == 0 then 2 else 3)
  }

  /** The strings and the words fit in one page below its last byte, which stays zero. */
  predicate Fits(argv: seq<Str>, envp: seq<Str>) {
    Total(envp) + Total(argv) + 8 * WordCount(|argv|, |envp|) <= PAGE_SIZE - 1
  }

  /** Where the string area starts, rounded down to a word. */
  function StringBase(argv: seq<Str>, envp: seq<Str>): nat
    requires Fits(argv, envp)
  {
    (PAGE_SIZE - 1 - Total(envp) - Total(argv)) / 8 * 8
  }

  /** The stack do_execv leaves. With no environment the NULL that should end envp is missing. */
  ghost predicate StackImage(page: seq<Byte>, rsp: nat, argv: seq<Str>, envp: seq<Str>, ap: seq<nat>, ep: seq<nat>)
    requires Fits(argv, envp)
  {
    && |page| == PAGE_SIZE && HoldsStrings(page, ap, argv) && HoldsStrings(page, ep, envp)
    && (forall i :: 0 <= i < |ap| ==> StringBase(argv, envp) < ap[i] < PAGE_SIZE)
    && (forall i :: 0 <= i < |ep| ==> StringBase(argv, envp) < ep[i] < PAGE_SIZE)
    && HoldsWords(page, rsp, Words(ap, ep))
    && rsp + 8 * |Words(ap, ep)| == StringBase(argv, envp)
  }

  /** argc, argv's pointers, and what lies above them: a NULL, or a NULL, envp's pointers and a NULL. */
  ghost function Words(ap: seq<nat>, ep: seq<nat>): seq<nat> {
    [|ap|] + (UserAddrs(ap) + EnvWords(ep))
  }

  ghost function EnvWords(ep: seq<nat>): seq<nat> {
    if ep == [] then [0] else [0] + (UserAddrs(ep) + [0])
  }

  /** What the two calls of set_params_to_stack leave: both groups of strings, and zero below. */
  ghost predicate StringArea(page: seq<Byte>, argv: seq<Str>, envp: seq<Str>, ap: seq<nat>, ep: seq<nat>, low: nat) {
    && |page| == PAGE_SIZE && low + Total(envp) + Total(argv) == PAGE_SIZE - 1
    && HoldsStrings(page, ap, argv) && HoldsStrings(page, ep, envp)
    && (forall i :: 0 <= i < |ap| ==> low < ap[i] < PAGE_SIZE)
    && (forall i :: 0 <= i < |ep| ==> low < ep[i] < PAGE_SIZE)
    && (forall k :: 0 <= k <= low ==> page[k] == 0)
    && Consecutive(ap, argv, low + 1)
  }

  method PlaceStrings(page: array<Byte>, argv: seq<Str>, envp: seq<Str>) returns (low: nat, ap: seq<nat>, ep: seq<nat>)
    requires page.Length == PAGE_SIZE && Fits(argv, envp) && forall i :: 0 <= i < PAGE_SIZE ==> page[i] == 0
    modifies page
    ensures StringArea(page[..], argv, envp, ap, ep, low)
  {
    ghost var p0 := page[..];
    var top: nat;
    top, ep := SetParamsToStack(page, PAGE_SIZE - 1, envp);
    ghost var p1 := page[..];
    PushedRoom(p1, PAGE_SIZE - 1, top, ep, envp);
    low, ap := SetParamsToStack(page, top, argv);
    BothPlaced(p0, p1, page[..], argv, envp, ap, ep, top, low);
  }

  lemma PushedRoom(p: seq<Byte>, rsp0: nat, rsp: nat, ptrs: seq<nat>, strs: seq<Str>)
    requires Pushed(p, rsp0, rsp, ptrs, strs)
    ensures rsp + Total(strs) == rsp0 < |p| && p[rsp] == 0
  {
    hide HoldsStrings, Total;
  }

  lemma BothPlaced(p0: seq<Byte>, p1: seq<Byte>, p2: seq<Byte>, argv: seq<Str>, envp: seq<Str>,
                   ap: seq<nat>, ep: seq<nat>, top: nat, low: nat)
    requires |p0| == PAGE_SIZE && forall k :: 0 <= k < PAGE_SIZE ==> p0[k] == 0
    requires Pushed(p1, PAGE_SIZE - 1, top, ep, envp) && SameOutside(p0, p1, top, PAGE_SIZE - 1)
    requires Pushed(p2, top, low, ap, argv) && SameOutside(p1, p2, low, top)
    ensures StringArea(p2, argv, envp, ap, ep, low)
  {
    hide HoldsString, Total;
    StringsKept(p1, p2, top, ep, envp);
    hide HoldsStrings;
    forall k | 0 <= k <= low
      ensures p2[k] == 0
    {
      if k < low {
        assert p2[k] == p2[..low][k] == p1[..low][k] == p1[k];
        assert p1[k] == p1[..top][k] == p0[..top][k] == p0[k];
      }
    }
  }

  /** The words of do_execv, below the string area. */
  method PlaceWords(page: array<Byte>, base: nat, ap: seq<nat>, ep: seq<nat>) returns (rsp: nat)
    requires page.Length == PAGE_SIZE && base <= PAGE_SIZE && 8 * WordCount(|ap|, |ep|) <= base
    requires forall i :: 0 <= i < |ap| ==> ap[i] < PAGE_SIZE
    requires forall i :: 0 <= i < |ep| ==> ep[i] < PAGE_SIZE
    modifies page
    ensures Table(old(page[..]), page[..], rsp, base, Words(ap, ep))
  {
    ghost var was := page[..];
    assert Table(was, page[..], base, base, []);
    hide Table, UserAddrs, Words;
    PushWord(page, base, 0, was, base, []);
    assert [0] + [] == [0];
    rsp := base - 8;
    rsp := PlaceEnv(page, rsp, ep, was, base);
    rsp := PushPointers(page, rsp, ap, was, base, EnvWords(ep));
    PushWord(page, rsp, |ap|, was, base, UserAddrs(ap) + EnvWords(ep));
    rsp := rsp - 8;
    WordsAre(ap, ep);
  }

  lemma WordsAre(ap: seq<nat>, ep: seq<nat>)
    ensures Words(ap, ep) == [|ap|] + (UserAddrs(ap) + EnvWords(ep))
  {
  }

  /** The environment pointers and the NULL between them and argv's, if there are any. */
  method PlaceEnv(page: array<Byte>, rsp0: nat, ep: seq<nat>, ghost was: seq<Byte>, ghost base: nat) returns (rsp: nat)
    requires Table(was, page[..], rsp0, base, [0]) && 8 * (|ep| + 1) <= rsp0
    requires forall i :: 0 <= i < |ep| ==> ep[i] < PAGE_SIZE
    modifies page
    ensures Table(was, page[..], rsp, base, EnvWords(ep))
    ensures rsp == if ep == [] then rsp0 else rsp0 - 8 * (|ep| + 1)
  {
    hide Table, UserAddrs;
    rsp := rsp0;
    if |ep| > 0 {
      rsp := PushPointers(page, rsp, ep, was, base, [0]);
      PushWord(page, rsp, 0, was, base, UserAddrs(ep) + [0]);
      rsp := rsp - 8;
    }
  }

  /** arg_start and arg_end, env_start and env_end of the mm_struct: the user addresses of the first and the
      last string. Without strings the fields stay the old program's. */
  datatype Bounds = Bounds(arg: Option<(nat, nat)>, env: Option<(nat, nat)>)

  function EndsOf(ptrs: seq<nat>): Option<(nat, nat)> {
    if ptrs == [] then None else Some((UserAddr(ptrs[0]), UserAddr(ptrs[|ptrs| - 1])))
  }

  /** The fields point at the first and last argument and the first and last environment string. */
  lemma BoundsMean(page: seq<Byte>, rsp: nat, argv: seq<Str>, envp: seq<Str>, ap: seq<nat>, ep: seq<nat>)
    requires Fits(argv, envp) && StackImage(page, rsp, argv, envp, ap, ep)
    ensures EndsOf(ap).Some? <==> argv != []
    ensures EndsOf(ep).Some? <==> envp != []
    ensures argv != [] ==>
              var (first, last) := EndsOf(ap).value;
              && UserAddr(0) <= first && UserAddr(0) <= last
              && HoldsString(page, first - UserAddr(0), argv[0])
              && HoldsString(page, last - UserAddr(0), argv[|argv| - 1])
    ensures envp != [] ==>
              var (first, last) := EndsOf(ep).value;
              && UserAddr(0) <= first && UserAddr(0) <= last
              && HoldsString(page, first - UserAddr(0), envp[0])
              && HoldsString(page, last - UserAddr(0), envp[|envp| - 1])
  {
    hide HoldsString, HoldsWords, Words, Fits;
  }

  /** do_execv up to the remapping, on a page that starts zero. An empty list stands for NULL. The offsets ap
      and ep are what set_params_to_stack leaves in the caller's own pointer arrays. */
  method BuildStack(page: array<Byte>, argv: seq<Str>, envp: seq<Str>)
    returns (rsp: nat, ap: seq<nat>, ep: seq<nat>, bounds: Bounds)
    requires page.Length == PAGE_SIZE && Fits(argv, envp) && forall i :: 0 <= i < PAGE_SIZE ==> page[i] == 0
    modifies page
    ensures StackImage(page[..], rsp, argv, envp, ap, ep)
    ensures ZeroUpTo(page[..], StringBase(argv, envp), argv, envp)
    ensures Consecutive(ap, argv, PAGE_SIZE - Total(envp) - Total(argv))
    ensures bounds == Bounds(EndsOf(ap), EndsOf(ep))
  {
    hide *;
    var low;
    low, ap, ep := PlaceStrings(page, argv, envp);
    ghost var p := page[..];
    AreaHasRoom(p, argv, envp, ap, ep, low);
    var base := low / 8 * 8;
    bounds := Bounds(EndsOf(ap), EndsOf(ep));
    rsp := PlaceWords(page, base, ap, ep);
    StackDone(p, page[..], argv, envp, ap, ep, low, base, rsp);
  }

  lemma AreaHasRoom(p: seq<Byte>, argv: seq<Str>, envp: seq<Str>, ap: seq<nat>, ep: seq<nat>, low: nat)
    requires Fits(argv, envp) && StringArea(p, argv, envp, ap, ep, low)
    ensures low / 8 * 8 <= PAGE_SIZE && 8 * WordCount(|ap|, |ep|) <= low / 8 * 8
    ensures forall i :: 0 <= i < |ap| ==> ap[i] < PAGE_SIZE
    ensures forall i :: 0 <= i < |ep| ==> ep[i] < PAGE_SIZE
  {
    hide HoldsString, Total, Consecutive, WordCount;
    assert |ap| == |argv| && |ep| == |envp|;
  }

  /** The bytes between the aligned base and the lowest terminator are zero. */
  ghost predicate ZeroUpTo(page: seq<Byte>, base: nat, argv: seq<Str>, envp: seq<Str>) {
    |page| == PAGE_SIZE && forall k :: base <= k <= PAGE_SIZE - 1 - Total(envp) - Total(argv) ==> page[k] == 0
  }

  lemma StackDone(p: seq<Byte>, q: seq<Byte>, argv: seq<Str>, envp: seq<Str>, ap: seq<nat>, ep: seq<nat>, low: nat,
                  base: nat, rsp: nat)
    requires Fits(argv, envp) && StringArea(p, argv, envp, ap, ep, low) && base == low / 8 * 8
    requires Table(p, q, rsp, base, Words(ap, ep))
    ensures StackImage(q, rsp, argv, envp, ap, ep) && ZeroUpTo(q, base, argv, envp) && base == StringBase(argv, envp)
    ensures Total(envp) + Total(argv) <= PAGE_SIZE && Consecutive(ap, argv, PAGE_SIZE - Total(envp) - Total(argv))
  {
    hide HoldsString, Total, HoldsWords, Words;
    StringsKept(p, q, base, ap, argv);
    StringsKept(p, q, base, ep, envp);
    KeepAbove(p, q, base);
    hide HoldsStrings;
  }

  // ----- what _start finds -----

  /** The offset a user pointer stands for. */
  function Local(addr: nat): nat {
    if addr >= STACK_TOP - PAGE_SIZE then addr - (STACK_TOP - PAGE_SIZE) else PAGE_SIZE
  }

  /** The strings behind n consecutive pointers. */
  function ReadStrings(page: seq<Byte>, at: nat, n: nat): seq<Str>
    decreases n
  {
    if n == 0 || at + 8 > |page| then []
    else [ReadString(page, Local(ReadWord(page, at)))] + ReadStrings(page, at + 8, n - 1)
  }

  /** The strings behind the pointers up to the first NULL. */
  function ReadUntilNull(page: seq<Byte>, at: nat): seq<Str>
    decreases |page| - at
  {
    if at + 8 > |page| || ReadWord(page, at) == 0 then []
    else [ReadString(page, Local(ReadWord(page, at)))] + ReadUntilNull(page, at + 8)
  }

  // _start: argc at rsp, argv behind it, envp behind argv's NULL
  function StartArgc(page: seq<Byte>, rsp: nat): nat
    requires rsp + 8 <= |page|
  {
    ReadWord(page, rsp)
  }

  function StartEnvp(rsp: nat, argc: nat): nat { rsp + 8 + 8 * argc + 8 }

  lemma {:induction false} PointersReadBack(page: seq<Byte>, at: nat, ptrs: seq<nat>, strs: seq<Str>)
    requires HoldsWords(page, at, UserAddrs(ptrs)) && HoldsStrings(page, ptrs, strs) && forall s :: s in strs ==>
               NoNul(s)
    ensures ReadStrings(page, at, |strs|) == strs
    decreases |strs|
  {
    if strs != [] {
      var words := UserAddrs(ptrs);
      assert words[0] == UserAddr(ptrs[0]) && ReadWord(page, at + 8 * 0) == words[0];
      HeldIsRead(page, ptrs[0], strs[0]);
      assert words[1..] == UserAddrs(ptrs[1..]);
      TailWords(page, at, words);
      PointersReadBack(page, at + 8, ptrs[1..], strs[1..]);
    }
  }

  lemma TailWords(page: seq<Byte>, at: nat, words: seq<nat>)
    requires HoldsWords(page, at, words) && words != []
    ensures HoldsWords(page, at + 8, words[1..]) && ReadWord(page, at) == words[0]
  {
    assert ReadWord(page, at + 8 * 0) == words[0];
    forall k | 0 <= k < |words| - 1
      ensures ReadWord(page, at + 8 + 8 * k) == words[1..][k]
    {
      assert words[1..][k] == words[k + 1];
    }
  }

  lemma {:induction false} NullTerminatedReadBack(page: seq<Byte>, at: nat, ptrs: seq<nat>, strs: seq<Str>)
    requires HoldsWords(page, at, UserAddrs(ptrs) + [0]) && HoldsStrings(page, ptrs, strs)
    requires forall s :: s in strs ==> NoNul(s)
    ensures ReadUntilNull(page, at) == strs
    decreases |strs|
  {
    var words := UserAddrs(ptrs) + [0];
    TailWords(page, at, words);
    if strs != [] {
      assert words[0] == UserAddr(ptrs[0]) != 0;
      HeldIsRead(page, ptrs[0], strs[0]);
      assert words[1..] == UserAddrs(ptrs[1..]) + [0];
      NullTerminatedReadBack(page, at + 8, ptrs[1..], strs[1..]);
    } else {
      assert ptrs == [] && words[0] == 0;
    }
  }

  lemma WordsFrom(page: seq<Byte>, at: nat, words: seq<nat>, i: nat, j: nat)
    requires HoldsWords(page, at, words) && i <= j <= |words|
    ensures HoldsWords(page, at + 8 * i, words[i..j])
  {
    forall k | 0 <= k < j - i
      ensures ReadWord(page, at + 8 * i + 8 * k) == words[i..j][k]
    {
      assert words[i..j][k] == words[i + k];
      assert at + 8 * (i + k) == at + 8 * i + 8 * k;
    }
  }

  /** The round trip: with at least one environment string, what _start finds at the relocated stack
      pointer is the argc, argv and envp that do_execv was given, both arrays end in NULL, and every
      string lies above all the words. */
  lemma ExecArgumentsRoundTrip(page: seq<Byte>, rsp: nat, argv: seq<Str>, envp: seq<Str>, ap: seq<nat>, ep: seq<nat>)
    requires Fits(argv, envp) && StackImage(page, rsp, argv, envp, ap, ep) && envp != []
    requires forall s :: s in argv || s in envp ==> NoNul(s)
    ensures rsp + 8 * (|argv| + |envp| + 3) <= PAGE_SIZE == |page|
    ensures StartArgc(page, rsp) == |argv| && ReadStrings(page, rsp + 8, |argv|) == argv
    ensures ReadWord(page, rsp + 8 + 8 * |argv|) == 0
    ensures ReadUntilNull(page, StartEnvp(rsp, |argv|)) == envp
    ensures forall i :: 0 <= i < |ap| ==> ap[i] > rsp + 8 * (|argv| + |envp| + 3)
    ensures forall i :: 0 <= i < |ep| ==> ep[i] > rsp + 8 * (|argv| + |envp| + 3)
  {
    hide *;
    ImageWords(page, rsp, argv, envp, ap, ep);
    ImageSize(page, rsp, argv, envp, ap, ep);
    PointersReadBack(page, rsp + 8, ap, argv);
    NullTerminatedReadBack(page, rsp + 16 + 8 * |argv|, ep, envp);
    StartFinds(page, rsp, |argv|);
  }

  lemma StartFinds(page: seq<Byte>, rsp: nat, argc: nat)
    requires rsp + 8 <= |page|
    ensures StartArgc(page, rsp) == ReadWord(page, rsp) && StartEnvp(rsp, argc) == rsp + 16 + 8 * argc
  {
    hide ReadWord;
  }

  lemma ImageSize(page: seq<Byte>, rsp: nat, argv: seq<Str>, envp: seq<Str>, ap: seq<nat>, ep: seq<nat>)
    requires Fits(argv, envp) && StackImage(page, rsp, argv, envp, ap, ep) && envp != []
    ensures |ap| == |argv| && |ep| == |envp| && HoldsStrings(page, ap, argv) && HoldsStrings(page, ep, envp)
    ensures rsp + 8 * (|argv| + |envp| + 3) == StringBase(argv, envp) <= PAGE_SIZE == |page|
    ensures forall i :: 0 <= i < |ap| ==> ap[i] > rsp + 8 * (|argv| + |envp| + 3)
    ensures forall i :: 0 <= i < |ep| ==> ep[i] > rsp + 8 * (|argv| + |envp| + 3)
  {
    hide HoldsString, Total, ReadWord, UserAddrs, HoldsWords;
  }

  /** The words of the image, group by group. */
  lemma ImageWords(page: seq<Byte>, rsp: nat, argv: seq<Str>, envp: seq<Str>, ap: seq<nat>, ep: seq<nat>)
    requires Fits(argv, envp) && StackImage(page, rsp, argv, envp, ap, ep) && envp != []
    ensures rsp + 16 + 8 * |argv| <= |page|
    ensures ReadWord(page, rsp) == |argv| && HoldsWords(page, rsp + 8, UserAddrs(ap))
    ensures ReadWord(page, rsp + 8 + 8 * |argv|) == 0 && HoldsWords(page, rsp + 16 + 8 * |argv|, UserAddrs(ep) + [0])
  {
    var words, n := Words(ap, ep), |argv|;
    assert |ap| == n && ep != [];
    SplitWords(n, UserAddrs(ap), UserAddrs(ep) + [0]);
    hide HoldsString, HoldsStrings, Total, ReadWord, UserAddrs, StringBase, HoldsWords;
    WordsFrom(page, rsp, words, 1, n + 1);
    WordsFrom(page, rsp, words, n + 2, |words|);
    WordAt(page, rsp, words, 0);
    WordAt(page, rsp, words, n + 1);
  }

  lemma WordAt(page: seq<Byte>, at: nat, words: seq<nat>, k: nat)
    requires HoldsWords(page, at, words) && k < |words|
    ensures at + 8 * k + 8 <= |page| && ReadWord(page, at + 8 * k) == words[k]
  {
    hide ReadWord;
  }

  lemma SplitWords(n: nat, a: seq<nat>, c: seq<nat>)
    requires |a| == n
    ensures var words := [n] + (a + ([0] + c));
            && |words| == n + 2 + |c| && words[0] == n && words[n + 1] == 0
            && words[1..n + 1] == a && words[n + 2..|words|] == c
  {
  }

  // ----- no environment -----

  lemma {:induction false} ZeroBytes(s: seq<Byte>)
    ensures FromBytes(s) == 0 <==> forall i :: 0 <= i < |s| ==> s[i] == 0
  {
    if s != [] {
      ZeroBytes(s[1..]);
      assert forall i :: 0 < i < |s| ==> s[i] == s[1..][i - 1];
      assert forall i :: 0 <= i < |s| - 1 ==> s[1..][i] == s[i + 1];
    }
  }

  lemma ZeroWord(page: seq<Byte>, at: nat)
    requires at + 8 <= |page|
    ensures ReadWord(page, at) == 0 <==> forall k :: at <= k < at + 8 ==> page[k] == 0
  {
    var word := page[at..at + 8];
    ZeroBytes(word);
    assert forall k :: at <= k < at + 8 ==> page[k] == word[k - at];
    assert forall i :: 0 <= i < 8 ==> word[i] == page[at + i];
  }

  lemma WithoutEnvironment(page: seq<Byte>, rsp: nat, argv: seq<Str>, ap: seq<nat>)
    requires Fits(argv, []) && StackImage(page, rsp, argv, [], ap, [])
    ensures StartEnvp(rsp, |argv|) == StringBase(argv, []) && |ap| == |argv|
    ensures HoldsStrings(page, ap, argv) && |page| == PAGE_SIZE
  {
    hide HoldsString, Total, ReadWord, HoldsWords;
  }

  /** The first n strings exist and are empty. */
  predicate StartsEmpty(argv: seq<Str>, n: nat) {
    n <= |argv| && forall i {:trigger argv[i]} :: 0 <= i < n ==> argv[i] == []
  }

  lemma {:induction false} EmptyTotal(argv: seq<Str>, n: nat)
    requires StartsEmpty(argv, n)
    ensures Total(argv[..n]) == n
    decreases n
  {
    if n > 0 {
      assert argv[..n][..n - 1] == argv[..n - 1];
      EmptyTotal(argv, n - 1);
    }
  }

  /** A string's first byte is zero exactly if it is empty. */
  lemma FirstByte(page: seq<Byte>, ap: seq<nat>, argv: seq<Str>, i: nat)
    requires HoldsStrings(page, ap, argv) && i < |argv| && NoNul(argv[i])
    ensures |ap| == |argv| && ap[i] < |page| && (page[ap[i]] == 0 <==> argv[i] == [])
  {
    assert HoldsString(page, ap[i], argv[i]);
    if argv[i] != [] {
      assert page[ap[i]] == page[ap[i]..ap[i] + |argv[i]|][0] == argv[i][0];
    }
  }

  /** While the strings before it are empty, string number i is one byte long and starts i bytes up. */
  lemma NextString(page: seq<Byte>, ap: seq<nat>, argv: seq<Str>, at: nat, i: nat)
    requires HoldsStrings(page, ap, argv) && Consecutive(ap, argv, at) && StartsEmpty(argv, i) && i < |argv|
             && NoNul(argv[i])
    ensures at + i < |page| && (page[at + i] == 0 <==> StartsEmpty(argv, i + 1))
  {
    EmptyTotal(argv, i);
    FirstByte(page, ap, argv, i);
    hide HoldsStrings, Total, NoNul;
  }

  /** The first n bytes of the strings are zero exactly if the first n strings are empty. */
  lemma {:induction false} LowestBytes(page: seq<Byte>, ap: seq<nat>, argv: seq<Str>, at: nat, n: nat)
    requires HoldsStrings(page, ap, argv) && Consecutive(ap, argv, at) && forall s :: s in argv ==> NoNul(s)
    requires n <= Total(argv) && at + n <= |page|
    ensures (forall k :: at <= k < at + n ==> page[k] == 0) <==> StartsEmpty(argv, n)
    decreases n
  {
    if n > 0 {
      LowestBytes(page, ap, argv, at, n - 1);
      if StartsEmpty(argv, n - 1) {
        EmptyTotal(argv, n - 1);
        assert argv[..|argv|] == argv;
        NextString(page, ap, argv, at, n - 1);
        hide HoldsStrings, Consecutive, Total, NoNul;
        assert (forall k :: at <= k < at + n ==> page[k] == 0) <==>
               (forall k :: at <= k < at + (n - 1) ==> page[k] == 0) && page[at + (n - 1)] == 0;
      }
    }
  }

  /** Without an environment do_execv writes no NULL for envp: _start takes the word at the bottom of
      the string area for its first pointer. It finds an empty environment exactly when the bytes that
      the argv strings leave over from whole words are those of empty strings in front. */
  lemma EmptyEnvironmentIff(page: seq<Byte>, rsp: nat, argv: seq<Str>, ap: seq<nat>)
    requires Fits(argv, []) && StackImage(page, rsp, argv, [], ap, [])
    requires ZeroUpTo(page, StringBase(argv, []), argv, []) && forall s :: s in argv ==> NoNul(s)
    requires Total(argv) <= PAGE_SIZE && Consecutive(ap, argv, PAGE_SIZE - Total(argv))
    ensures ReadUntilNull(page, StartEnvp(rsp, |argv|)) == [] <==> StartsEmpty(argv, Total(argv) % 8)
  {
    hide *;
    WithoutEnvironment(page, rsp, argv, ap);
    var low, left := BaseAndLow(page, argv);
    LowestBytes(page, ap, argv, low + 1, left);
    FirstWordIsNull(page, StringBase(argv, []), low, left);
    EmptyIffNull(page, StringBase(argv, []));
  }

  lemma BaseAndLow(page: seq<Byte>, argv: seq<Str>) returns (low: nat, left: nat)
    requires Fits(argv, []) && ZeroUpTo(page, StringBase(argv, []), argv, [])
    ensures var base := StringBase(argv, []);
            && Total(argv) <= PAGE_SIZE && low + 1 == PAGE_SIZE - Total(argv) && left == Total(argv) % 8
            && left <= Total(argv) && low + 1 + left <= |page|
            && base <= low && low + left == base + 7 && base + 8 <= |page|
            && forall k :: base <= k <= low ==> page[k] == 0
  {
    low, left := PAGE_SIZE - 1 - Total(argv), Total(argv) % 8;
    assert Total([]) == 0;
    hide Total;
  }

  lemma FirstWordIsNull(page: seq<Byte>, base: nat, low: nat, left: nat)
    requires base <= low && low + left == base + 7 && base + 8 <= |page|
    requires forall k :: base <= k <= low ==> page[k] == 0
    ensures ReadWord(page, base) == 0 <==> forall k :: low + 1 <= k < low + 1 + left ==> page[k] == 0
  {
    hide ReadWord;
    ZeroWord(page, base);
  }

  lemma EmptyIffNull(page: seq<Byte>, at: nat)
    requires at + 8 <= |page|
    ensures ReadUntilNull(page, at) == [] <==> ReadWord(page, at) == 0
  {
    hide ReadWord;
  }
}
