/** The kernel's memcpy: word copies, with shift-and-merge loops for the three misaligned cases.

    Memory is one byte array and an address is an index into it, so that alignment and
    disjointness are facts about numbers. `Load32` and `Store32` demand an aligned address and a
    word inside the range the caller may touch: a call of `Memcpy` that verifies has loaded no
    word outside the source and stored none outside the destination. */
module Memcpy {

  type Byte = bv8

  /** The little-endian word held by four bytes. */
  function Pack(b0: Byte, b1: Byte, b2: Byte, b3: Byte): bv32 {
    (b0 as bv32) | ((b1 as bv32) << 8) | ((b2 as bv32) << 16) | ((b3 as bv32) << 24)
  }

  function Byte0(w: bv32): Byte { (w & 0xFF) as Byte }
  function Byte1(w: bv32): Byte { ((w >> 8) & 0xFF) as Byte }
  function Byte2(w: bv32): Byte { ((w >> 16) & 0xFF) as Byte }
  function Byte3(w: bv32): Byte { ((w >> 24) & 0xFF) as Byte }

  /** The word a 32-bit load at address a reads. */
  function WordAt(m: seq<Byte>, a: nat): bv32
    requires a + 4 <= |m|
  {
    Pack(m[a], m[a + 1], m[a + 2], m[a + 3])
  }

  lemma PackRoundTrip(b0: Byte, b1: Byte, b2: Byte, b3: Byte)
    ensures Byte0(Pack(b0, b1, b2, b3)) == b0 && Byte1(Pack(b0, b1, b2, b3)) == b1
    ensures Byte2(Pack(b0, b1, b2, b3)) == b2 && Byte3(Pack(b0, b1, b2, b3)) == b3
  {
  }

  // Two neighbouring source words shifted against each other, as the three misaligned loops do.
  function Merge1(w: bv32, x: bv32): bv32 { (w >> 8) | (x << 24) }
  function Merge2(w: bv32, x: bv32): bv32 { (w >> 16) | (x << 16) }
  function Merge3(w: bv32, x: bv32): bv32 { (w >> 24) | (x << 8) }

  /** The word stored by the loop that starts with `lead` single bytes. */
  function Merge(w: bv32, x: bv32, lead: nat): bv32
    requires 1 <= lead <= 3
  {
    if lead == 3 then Merge3(w, x) else if lead == 2 then Merge2(w, x) else Merge1(w, x)
  }

  lemma MergePacked1(b0: Byte, b1: Byte, b2: Byte, b3: Byte, b4: Byte, b5: Byte, b6: Byte, b7: Byte)
    ensures Merge1(Pack(b0, b1, b2, b3), Pack(b4, b5, b6, b7)) == Pack(b1, b2, b3, b4)
  {
  }

  lemma MergePacked2(b0: Byte, b1: Byte, b2: Byte, b3: Byte, b4: Byte, b5: Byte, b6: Byte, b7: Byte)
    ensures Merge2(Pack(b0, b1, b2, b3), Pack(b4, b5, b6, b7)) == Pack(b2, b3, b4, b5)
  {
  }

  lemma MergePacked3(b0: Byte, b1: Byte, b2: Byte, b3: Byte, b4: Byte, b5: Byte, b6: Byte, b7: Byte)
    ensures Merge3(Pack(b0, b1, b2, b3), Pack(b4, b5, b6, b7)) == Pack(b3, b4, b5, b6)
  {
  }

  /** Merging two neighbouring words gives the word that starts `lead` bytes into the first. */
  lemma MergedWord(m: seq<Byte>, a: nat, lead: nat)
    requires a + 8 <= |m| && 1 <= lead <= 3
    ensures Merge(WordAt(m, a), WordAt(m, a + 4), lead) == WordAt(m, a + lead)
  {
    hide Pack, Merge1, Merge2, Merge3;
    if lead == 1 {
      MergePacked1(m[a], m[a + 1], m[a + 2], m[a + 3], m[a + 4], m[a + 5], m[a + 6], m[a + 7]);
    } else if lead == 2 {
      MergePacked2(m[a], m[a + 1], m[a + 2], m[a + 3], m[a + 4], m[a + 5], m[a + 6], m[a + 7]);
    } else {
      MergePacked3(m[a], m[a + 1], m[a + 2], m[a + 3], m[a + 4], m[a + 5], m[a + 6], m[a + 7]);
    }
  }

  /** The specification: the byte-at-a-time loop at the end of the C function. */
  function ByteLoop(m: seq<Byte>, d: nat, s: nat, n: nat): (r: seq<Byte>)
    requires d + n <= |m| && s + n <= |m|
    ensures |r| == |m|
    decreases n
  {
    if n == 0 then m else ByteLoop(m[d := m[s]], d + 1, s + 1, n - 1)
  }

  predicate Aligned(a: nat) {
    a % 4 == 0
  }

  lemma NextAligned(a: nat)
    requires Aligned(a)
    ensures Aligned(a + 4)
  {
  }

  ghost predicate Disjoint(dest: nat, src: nat, n: nat) {
    dest + n <= src || src + n <= dest
  }

  /** now is o with the first k of the bytes to be copied in place. */
  ghost predicate Copied(o: seq<Byte>, now: seq<Byte>, dest: nat, src: nat, k: nat) {
    && |now| == |o| && dest + k <= |o| && src + k <= |o|
    && forall i {:trigger now[i]} :: 0 <= i < |o| ==> now[i] == if dest <= i < dest + k then o[src + i - dest] else o[i]
  }

  /** On disjoint ranges the byte loop moves exactly the source bytes and nothing else. */
  lemma {:induction false} ByteLoopCopies(m: seq<Byte>, d: nat, s: nat, n: nat)
    requires d + n <= |m| && s + n <= |m| && Disjoint(d, s, n)
    ensures Copied(m, ByteLoop(m, d, s, n), d, s, n)
    decreases n
  {
    if n > 0 {
      var m' := m[d := m[s]];
      ByteLoopCopies(m', d + 1, s + 1, n - 1);
      var r := ByteLoop(m', d + 1, s + 1, n - 1);
      forall i {:trigger r[i]} | 0 <= i < |m|
        ensures r[i] == if d <= i < d + n then m[s + i - d] else m[i]
      {
        assert r[i] == if d + 1 <= i < d + n then m'[s + i - d] else m'[i];
      }
    }
  }

  /** What memcpy promises: the destination holds the source bytes, the rest is untouched. */
  lemma ByteLoopIsSplice(m: seq<Byte>, d: nat, s: nat, n: nat)
    requires d + n <= |m| && s + n <= |m| && Disjoint(d, s, n)
    ensures ByteLoop(m, d, s, n) == m[..d] + m[s..s + n] + m[d + n..]
  {
    hide *;
    ByteLoopCopies(m, d, s, n);
    CopiedIsSplice(m, ByteLoop(m, d, s, n), d, s, n);
  }

  lemma CopiedIsSplice(o: seq<Byte>, now: seq<Byte>, d: nat, s: nat, n: nat)
    requires d + n <= |o| && s + n <= |o| && Copied(o, now, d, s, n)
    ensures now == o[..d] + o[s..s + n] + o[d + n..]
  {
    var front, back := o[..d] + o[s..s + n], o[d + n..];
    assert forall i :: 0 <= i < d + n ==> front[i] == now[i];
    assert forall i :: d + n <= i < |o| ==> back[i - (d + n)] == now[i];
  }

  /** The bit of n worth k: the C test n & k. */
  function Bit(n: nat, k: nat): nat
    requires k > 0
  {
    n / k % 2
  }

  /** The tail of the copy tests n bit by bit: the bits add up to n. */
  lemma TailBits(n: nat)
    requires n < 32
    ensures n == 16 * Bit(n, 16) + 8 * Bit(n, 8) + 4 * Bit(n, 4) + 2 * Bit(n, 2) + Bit(n, 1)
    ensures Bit(n, 16) <= 1 && Bit(n, 8) <= 1 && Bit(n, 4) <= 1 && Bit(n, 2) <= 1 && Bit(n, 1) <= 1
  {
    assert n / 2 == 2 * (n / 4) + n / 2 % 2;
    assert n / 4 == 2 * (n / 8) + n / 4 % 2;
    assert n / 8 == 2 * (n / 16) + n / 8 % 2;
  }

  lemma NothingCopied(o: seq<Byte>, dest: nat, src: nat)
    requires dest <= |o| && src <= |o|
    ensures Copied(o, o, dest, src, 0)
  {
  }

  /** A finished copy is what the byte loop would have left. */
  lemma CopiedIsByteLoop(o: seq<Byte>, now: seq<Byte>, dest: nat, src: nat, n: nat)
    requires dest + n <= |o| && src + n <= |o| && Disjoint(dest, src, n)
    requires Copied(o, now, dest, src, n)
    ensures now == ByteLoop(o, dest, src, n)
  {
    ByteLoopCopies(o, dest, src, n);
  }

  method MoveByte(mem: array<Byte>, d: nat, s: nat,
                  ghost o: seq<Byte>, ghost dest: nat, ghost src: nat, ghost len: nat)
    requires Disjoint(dest, src, len) && dest + len <= mem.Length && src + len <= mem.Length
    requires dest <= d < dest + len && s - src == d - dest
    requires Copied(o, mem[..], dest, src, d - dest)
    modifies mem
    ensures Copied(o, mem[..], dest, src, d + 1 - dest)
  {
    assert mem[..][s] == o[s];
    mem[d] := mem[s];
  }

  method Load32(mem: array<Byte>, a: nat,
                ghost o: seq<Byte>, ghost dest: nat, ghost src: nat, ghost len: nat, ghost k: nat) returns (w: bv32)
    requires Disjoint(dest, src, len) && dest + len <= mem.Length && src + len <= mem.Length && k <= len
    requires Aligned(a) && src <= a && a + 4 <= src + len
    requires Copied(o, mem[..], dest, src, k)
    ensures a + 4 <= |o| && w == WordAt(o, a)
  {
    w := Pack(mem[a], mem[a + 1], mem[a + 2], mem[a + 3]);
    assert mem[..][a] == o[a] && mem[..][a + 1] == o[a + 1];
    assert mem[..][a + 2] == o[a + 2] && mem[..][a + 3] == o[a + 3];
  }

  method Store32(mem: array<Byte>, a: nat, w: bv32,
                 ghost o: seq<Byte>, ghost dest: nat, ghost src: nat, ghost len: nat)
    requires Disjoint(dest, src, len) && dest + len <= mem.Length && src + len <= mem.Length
    requires Aligned(a) && dest <= a && a + 4 <= dest + len
    requires Copied(o, mem[..], dest, src, a - dest)
    requires w == WordAt(o, src + (a - dest))
    modifies mem
    ensures Copied(o, mem[..], dest, src, a + 4 - dest)
  {
    ghost var s := src + (a - dest);
    PackRoundTrip(o[s], o[s + 1], o[s + 2], o[s + 3]);
    mem[a] := Byte0(w);
    mem[a + 1] := Byte1(w);
    mem[a + 2] := Byte2(w);
    mem[a + 3] := Byte3(w);
  }

  /** count plain byte moves, unrolled in the C source. */
  method MoveBytes(mem: array<Byte>, d0: nat, s0: nat, count: nat,
                   ghost o: seq<Byte>, ghost dest: nat, ghost src: nat, ghost len: nat) returns (d: nat, s: nat)
    requires Disjoint(dest, src, len) && dest + len <= mem.Length && src + len <= mem.Length
    requires dest <= d0 && d0 + count <= dest + len && s0 - src == d0 - dest
    requires Copied(o, mem[..], dest, src, d0 - dest)
    modifies mem
    ensures d == d0 + count && s == s0 + count
    ensures Copied(o, mem[..], dest, src, d - dest)
  {
    d, s := d0, s0;
    while d < d0 + count
      invariant d0 <= d <= d0 + count && s - src == d - dest
      invariant Copied(o, mem[..], dest, src, d - dest)
    {
      MoveByte(mem, d, s, o, dest, src, len);
      d, s := d + 1, s + 1;
    }
  }

  /** An aligned word moved to an aligned place. */
  method MoveWord(mem: array<Byte>, d: nat, s: nat,
                  ghost o: seq<Byte>, ghost dest: nat, ghost src: nat, ghost len: nat)
    requires Disjoint(dest, src, len) && dest + len <= mem.Length && src + len <= mem.Length
    requires Aligned(d) && Aligned(s)
    requires dest <= d && d + 4 <= dest + len && s - src == d - dest
    requires Copied(o, mem[..], dest, src, d - dest)
    modifies mem
    ensures Copied(o, mem[..], dest, src, d + 4 - dest)
  {
    var w := Load32(mem, s, o, dest, src, len, d - dest);
    Store32(mem, d, w, o, dest, src, len);
  }

  /** count aligned word moves, unrolled in the C source. */
  method MoveWords(mem: array<Byte>, d0: nat, s0: nat, count: nat,
                   ghost o: seq<Byte>, ghost dest: nat, ghost src: nat, ghost len: nat) returns (d: nat, s: nat)
    requires Disjoint(dest, src, len) && dest + len <= mem.Length && src + len <= mem.Length
    requires Aligned(d0) && Aligned(s0)
    requires dest <= d0 && d0 + 4 * count <= dest + len && s0 - src == d0 - dest
    requires Copied(o, mem[..], dest, src, d0 - dest)
    modifies mem
    ensures d == d0 + 4 * count && s == s0 + 4 * count && Aligned(d) && Aligned(s)
    ensures Copied(o, mem[..], dest, src, d - dest)
  {
    hide *;
    d, s := d0, s0;
    for i := 0 to count
      invariant d == d0 + 4 * i && s == s0 + 4 * i && Aligned(d) && Aligned(s)
      invariant Copied(o, mem[..], dest, src, d - dest)
    {
      NextAligned(d);
      NextAligned(s);
      MoveWord(mem, d, s, o, dest, src, len);
      d, s := d + 4, s + 4;
    }
  }

  /** The case d % 4 == 0: whole words, then the last n % 16 bytes by the bits of n. */
  method CopyAligned(mem: array<Byte>, d0: nat, s0: nat, n0: nat,
                     ghost o: seq<Byte>, ghost dest: nat, ghost src: nat, ghost len: nat)
    requires Disjoint(dest, src, len) && dest + len <= mem.Length && src + len <= mem.Length
    requires Aligned(d0) && (Aligned(s0) || n0 == 0)
    requires dest <= d0 && d0 + n0 == dest + len && s0 - src == d0 - dest
    requires Copied(o, mem[..], dest, src, d0 - dest)
    modifies mem
    ensures Copied(o, mem[..], dest, src, len)
  {
    hide *;
    var d, s, n := d0, s0, n0;
    while n >= 16
      invariant n >= 0 && d0 <= d && d + n == dest + len && s - src == d - dest
      invariant Aligned(d) && (Aligned(s) || n == 0)
      invariant Copied(o, mem[..], dest, src, d - dest)
    {
      d, s := MoveWords(mem, d, s, 4, o, dest, src, len);
      n := n - 16;
    }
    TailBits(n);
    if Bit(n, 8) == 1 {
      d, s := MoveWords(mem, d, s, 2, o, dest, src, len);
    }
    if Bit(n, 4) == 1 {
      d, s := MoveWords(mem, d, s, 1, o, dest, src, len);
    }
    if Bit(n, 2) == 1 {
      d, s := MoveBytes(mem, d, s, 2, o, dest, src, len);
    }
    if Bit(n, 1) == 1 {
      MoveByte(mem, d, s, o, dest, src, len);
      d := d + 1;
    }
    assert d - dest == len;
  }

  /** One misaligned loop, for d % 4 == 4 - lead: `lead` bytes are copied singly, after which the
      destination is aligned and the source is `lead` bytes into the word held in w. Every round
      stores four words merged from neighbouring source words. */
  method CopyMisaligned(mem: array<Byte>, d0: nat, s0: nat, n0: nat, lead: nat,
                        ghost o: seq<Byte>, ghost dest: nat, ghost src: nat, ghost len: nat)
    returns (d: nat, s: nat, n: nat)
    requires Disjoint(dest, src, len) && dest + len <= mem.Length && src + len <= mem.Length
    requires 1 <= lead <= 3 && d0 % 4 == 4 - lead && Aligned(s0) && n0 >= 32
    requires dest <= d0 && d0 + n0 == dest + len && s0 - src == d0 - dest
    requires Copied(o, mem[..], dest, src, d0 - dest)
    modifies mem
    ensures d + n == dest + len && s - src == d - dest && d0 <= d && n < 32
    ensures Copied(o, mem[..], dest, src, d - dest)
  {
    hide *;
    var w := Load32(mem, s0, o, dest, src, len, d0 - dest);
    LeadAligns(d0, lead);
    d, s := MoveBytes(mem, d0, s0, lead, o, dest, src, len);
    n := n0 - lead;
    while n >= 20 - lead
      invariant d0 <= d && d + n == dest + len && s - src == d - dest && s - lead >= src
      invariant Aligned(d) && Aligned(s - lead) && n >= 4 - lead
      invariant Copied(o, mem[..], dest, src, d - dest)
      invariant s - lead + 4 <= |o| && w == WordAt(o, s - lead)
    {
      d, s, w := MergeFour(mem, d, s, w, lead, o, dest, src, len);
      n := n - 16;
    }
  }

  lemma LeadAligns(d: nat, lead: nat)
    requires lead <= 3 && d % 4 == 4 - lead
    ensures Aligned(d + lead)
  {
  }

  /** The four merges of one round. */
  method MergeFour(mem: array<Byte>, d0: nat, s0: nat, w0: bv32, lead: nat,
                   ghost o: seq<Byte>, ghost dest: nat, ghost src: nat, ghost len: nat)
    returns (d: nat, s: nat, w: bv32)
    requires Disjoint(dest, src, len) && dest + len <= mem.Length && src + len <= mem.Length
    requires 1 <= lead <= 3 && Aligned(d0) && s0 >= lead && Aligned(s0 - lead) && s0 - lead >= src
    requires dest <= d0 && d0 + 20 - lead <= dest + len && s0 - src == d0 - dest
    requires Copied(o, mem[..], dest, src, d0 - dest)
    requires s0 - lead + 4 <= |o| && w0 == WordAt(o, s0 - lead)
    modifies mem
    ensures d == d0 + 16 && s == s0 + 16 && Aligned(d) && Aligned(s - lead)
    ensures Copied(o, mem[..], dest, src, d - dest)
    ensures s - lead + 4 <= |o| && w == WordAt(o, s - lead)
  {
    hide *;
    d, s, w := d0, s0, w0;
    for i := 0 to 4
      invariant d == d0 + 4 * i && s == s0 + 4 * i && Aligned(d) && Aligned(s - lead)
      invariant Copied(o, mem[..], dest, src, d - dest)
      invariant s - lead + 4 <= |o| && w == WordAt(o, s - lead)
    {
      NextAligned(d);
      NextAligned(s - lead);
      w := MergeAndStore(mem, d, s, w, lead, o, dest, src, len);
      d, s := d + 4, s + 4;
    }
  }

  /** One line pair of the misaligned loops: load the next source word, store the merge. */
  method MergeAndStore(mem: array<Byte>, d: nat, s: nat, w: bv32, lead: nat,
                       ghost o: seq<Byte>, ghost dest: nat, ghost src: nat, ghost len: nat) returns (x: bv32)
    requires Disjoint(dest, src, len) && dest + len <= mem.Length && src + len <= mem.Length
    requires 1 <= lead <= 3 && Aligned(d) && s >= lead && Aligned(s - lead) && s - lead >= src
    requires dest <= d && d + 8 - lead <= dest + len && s - src == d - dest
    requires Copied(o, mem[..], dest, src, d - dest)
    requires s - lead + 4 <= |o| && w == WordAt(o, s - lead)
    modifies mem
    ensures Copied(o, mem[..], dest, src, d + 4 - dest)
    ensures s - lead + 8 <= |o| && x == WordAt(o, s - lead + 4)
  {
    hide *;
    NextAligned(s - lead);
    x := Load32(mem, s - lead + 4, o, dest, src, len, d - dest);
    MergedWord(o, s - lead, lead);
    var merged := Merge(w, x, lead);
    Store32(mem, d, merged, o, dest, src, len);
  }

  /** The last n < 32 bytes of a misaligned copy, by the bits of n. */
  method CopyTail(mem: array<Byte>, d0: nat, s0: nat, n: nat,
                  ghost o: seq<Byte>, ghost dest: nat, ghost src: nat, ghost len: nat)
    requires Disjoint(dest, src, len) && dest + len <= mem.Length && src + len <= mem.Length
    requires n < 32 && dest <= d0 && d0 + n == dest + len && s0 - src == d0 - dest
    requires Copied(o, mem[..], dest, src, d0 - dest)
    modifies mem
    ensures Copied(o, mem[..], dest, src, len)
  {
    hide *;
    var d, s := d0, s0;
    TailBits(n);
    if Bit(n, 16) == 1 {
      d, s := MoveBytes(mem, d, s, 16, o, dest, src, len);
    }
    if Bit(n, 8) == 1 {
      d, s := MoveBytes(mem, d, s, 8, o, dest, src, len);
    }
    if Bit(n, 4) == 1 {
      d, s := MoveBytes(mem, d, s, 4, o, dest, src, len);
    }
    if Bit(n, 2) == 1 {
      d, s := MoveBytes(mem, d, s, 2, o, dest, src, len);
    }
    if Bit(n, 1) == 1 {
      MoveByte(mem, d, s, o, dest, src, len);
      d := d + 1;
    }
    assert d - dest == len;
  }

  /** memcpy equals the byte loop, for every length, every pair of alignments and disjoint ranges. */
  method Memcpy(mem: array<Byte>, dest: nat, src: nat, n0: nat)
    requires dest + n0 <= mem.Length && src + n0 <= mem.Length && Disjoint(dest, src, n0)
    modifies mem
    ensures mem[..] == ByteLoop(old(mem[..]), dest, src, n0)
  {
    hide *;
    ghost var o := mem[..];
    NothingCopied(o, dest, src);
    var d, s, n := dest, src, n0;
    while !Aligned(s) && n != 0
      invariant n >= 0 && dest <= d && d + n == dest + n0 && s - src == d - dest
      invariant Copied(o, mem[..], dest, src, d - dest)
      decreases n
    {
      MoveByte(mem, d, s, o, dest, src, n0);
      d, s, n := d + 1, s + 1, n - 1;
    }
    if Aligned(d) {
      CopyAligned(mem, d, s, n, o, dest, src, n0);
    } else {
      if n >= 32 {
        // the switch on d % 4: cases 1, 2 and 3 copy 3, 2 and 1 leading bytes
        Residue(d);
        d, s, n := CopyMisaligned(mem, d, s, n, 4 - d % 4, o, dest, src, n0);
      }
      CopyTail(mem, d, s, n, o, dest, src, n0);
    }
    CopiedIsByteLoop(o, mem[..], dest, src, n0);
  }

  lemma Residue(d: nat)
    requires !Aligned(d)
    ensures 1 <= d % 4 <= 3
  {
  }
}
