// The guest's C heap, host/guest_lean/src/sp1_malloc.rs: malloc, calloc, realloc and free that keep the requested size
// in a 16-byte header and take their memory from the Rust global allocator.

module Heap {
  import opened Bytes

  const HEADER: nat := 16

  /** The bytes of a `usize` in memory order on a little-endian target. */
  function LittleEndian(v: nat, width: nat): (s: seq<byte>)
    ensures |s| == width
  {
    if width == 0 then [] else [v % 256] + LittleEndian(v / 256, width - 1)
  }

  function FromLittleEndian(s: seq<byte>): nat {
    if s == [] then 0 else s[0] + 256 * FromLittleEndian(s[1..])
  }

  lemma {:induction false} LittleEndianRoundTrip(v: nat, width: nat)
    requires v < Pow256(width)
    ensures FromLittleEndian(LittleEndian(v, width)) == v
  {
    if width != 0 {
      assert v / 256 < Pow256(width - 1);
      LittleEndianRoundTrip(v / 256, width - 1);
      assert LittleEndian(v, width)[1..] == LittleEndian(v / 256, width - 1);
    }
  }

  // ---------- Memory as a value ----------

  function Written(m: seq<byte>, a: nat, s: seq<byte>): (r: seq<byte>)
    requires a + |s| <= |m|
    ensures |r| == |m|
  {
    m[..a] + s + m[a + |s|..]
  }

  function Region(m: seq<byte>, a: nat, n: nat): (r: seq<byte>)
    requires a + n <= |m|
    ensures |r| == n
  {
    m[a..a + n]
  }

  lemma WrittenElsewhere(m: seq<byte>, a: nat, s: seq<byte>, b: nat, n: nat)
    requires a + |s| <= |m| && b + n <= |m|
    requires a + |s| <= b || b + n <= a
    ensures Region(Written(m, a, s), b, n) == Region(m, b, n)
  {
  }

  lemma WrittenHere(m: seq<byte>, a: nat, s: seq<byte>)
    requires a + |s| <= |m|
    ensures Region(Written(m, a, s), a, |s|) == s
  {
  }

  lemma WrittenInside(m: seq<byte>, a: nat, n: nat, i: nat, s: seq<byte>)
    requires a + n <= |m| && i + |s| <= n
    ensures Region(Written(m, a + i, s), a, n) == Written(Region(m, a, n), i, s)
  {
  }

  /** The backing allocator's books: base address and byte size of each block it has handed out. */
  type Books = map<nat, nat>

  predicate Disjoint(a: nat, n: nat, b: nat, k: nat) {
    a + n <= b || b + k <= a
  }

  /** A block the allocator may hand out: in the address space, not null, aligned, and clear of the others. */
  predicate Fits(held: Books, size: nat, base: nat, total: nat) {
    && base != 0 && base % HEADER == 0 && base + total <= size
    && base !in held
    && forall b :: b in held ==> Disjoint(b, held[b], base, total)
  }

  ghost predicate GoodBooks(held: Books, size: nat) {
    && (forall b :: b in held ==> b != 0 && b % HEADER == 0 && held[b] > 0 && b + held[b] <= size)
    && (forall b, c :: b in held && c in held && b != c ==> Disjoint(b, held[b], c, held[c]))
  }

  function UsizeMax(word: nat): nat {
    Pow256(word) - 1
  }

  /** `Layout::from_size_align(total, 16)` refuses sizes that round up past `isize::MAX`. */
  predicate LayoutOk(word: nat, total: nat) {
    total <= UsizeMax(word) / 2 - (HEADER - 1)
  }

  function SaturatingAdd(word: nat, x: nat, y: nat): nat {
    if x + y <= UsizeMax(word) then x + y else UsizeMax(word)
  }

  /** A block handed to C code: `p` is its address, `n` its size, and its header says so. */
  ghost predicate Block(m: seq<byte>, held: Books, word: nat, p: nat, n: nat) {
    && HEADER < p && n > 0
    && p - HEADER in held && held[p - HEADER] == n + HEADER
    && LayoutOk(word, n + HEADER)
    && p + n <= |m| && word <= HEADER
    && FromLittleEndian(Region(m, p - HEADER, word)) == n
  }

  /** The heap invariant.  `foreign` are the blocks of the allocator's other clients. */
  ghost predicate Inv(m: seq<byte>, held: Books, live: Books, foreign: set<nat>, word: nat) {
    && GoodBooks(held, |m|)
    && (forall p :: p in live ==> Block(m, held, word, p, live[p]) && p - HEADER !in foreign)
    && (forall b :: b in held ==> b in foreign || b + HEADER in live)
    && (forall b :: b in foreign ==> b in held)
  }

  // ---------- What the operations keep ----------

  lemma GrowBooks(held: Books, size: nat, base: nat, total: nat)
    requires GoodBooks(held, size) && Fits(held, size, base, total) && total > 0
    ensures GoodBooks(held[base := total], size)
  {
  }

  /** Taking a block from the allocator and writing its header. */
  lemma MallocKeeps(
      m: seq<byte>, held: Books, live: Books, foreign: set<nat>, word: nat, base: nat, n: nat)
    requires Inv(m, held, live, foreign, word) && 0 < word <= 8
    requires n > 0 && LayoutOk(word, n + HEADER) && Fits(held, |m|, base, n + HEADER)
    ensures
      var m' := Written(m, base, LittleEndian(n, word));
      Inv(m', held[base := n + HEADER], live[base + HEADER := n], foreign, word) &&
      base + HEADER !in live &&
      (forall b :: b in held ==> Region(m', b, held[b]) == Region(m, b, held[b]))
  {
    hide GoodBooks, FromLittleEndian, LittleEndian, Written, Region, Pow256;
    var s := LittleEndian(n, word);
    var m' := Written(m, base, s);
    var held', live' := held[base := n + HEADER], live[base + HEADER := n];
    GrowBooks(held, |m|, base, n + HEADER);
    HeaderRoundTrip(n, word);
    WrittenHere(m, base, s);
    assert Block(m', held', word, base + HEADER, n);
    forall b | b in held
      ensures b + held[b] <= |m| && Region(m', b, held[b]) == Region(m, b, held[b])
    {
      BookEntry(held, |m|, b);
      WrittenElsewhere(m, base, s, b, held[b]);
    }
    forall p | p in live
      ensures p != base + HEADER && Block(m', held', word, p, live[p])
    {
      WrittenElsewhere(m, base, s, p - HEADER, word);
    }
  }

  lemma BookEntry(held: Books, size: nat, b: nat)
    requires GoodBooks(held, size) && b in held
    ensures b != 0 && b % HEADER == 0 && b + held[b] <= size
  {
  }

  lemma HeaderRoundTrip(n: nat, word: nat)
    requires LayoutOk(word, n + HEADER)
    ensures FromLittleEndian(LittleEndian(n, word)) == n
  {
    hide FromLittleEndian, LittleEndian, Pow256;
    LittleEndianRoundTrip(n, word);
  }

  lemma ShrinkBooks(held: Books, size: nat, b: nat)
    requires GoodBooks(held, size)
    ensures GoodBooks(held - {b}, size)
  {
  }

  /** Giving a live block back. */
  lemma FreeKeeps(m: seq<byte>, held: Books, live: Books, foreign: set<nat>, word: nat, p: nat)
    requires Inv(m, held, live, foreign, word) && p in live
    ensures Inv(m, held - {p - HEADER}, live - {p}, foreign, word)
  {
    hide FromLittleEndian, Region, LayoutOk, GoodBooks;
    ShrinkBooks(held, |m|, p - HEADER);
    var held', live' := held - {p - HEADER}, live - {p};
    forall q | q in live'
      ensures Block(m, held', word, q, live'[q]) && q - HEADER !in foreign
    {
      assert q in live && q != p && live'[q] == live[q];
      assert q - HEADER in held' && held'[q - HEADER] == held[q - HEADER];
    }
    forall b | b in held'
      ensures b in foreign || b + HEADER in live'
    {
      assert b in held && b != p - HEADER;
    }
  }

  /** Writing inside a live block. */
  lemma WriteKeeps(m: seq<byte>, held: Books, live: Books, foreign: set<nat>, word: nat, p: nat, i: nat, s: seq<byte>)
    requires Inv(m, held, live, foreign, word) && 0 < word <= 8
    requires p in live && i + |s| <= live[p]
    ensures
      var m' := Written(m, p + i, s);
      Inv(m', held, live, foreign, word) &&
      Region(m', p, live[p]) == Written(Region(m, p, live[p]), i, s) &&
      (forall b :: b in held && b != p - HEADER ==> Region(m', b, held[b]) == Region(m, b, held[b]))
  {
    hide GoodBooks, FromLittleEndian, Written, Region, LayoutOk;
    var m' := Written(m, p + i, s);
    WrittenInside(m, p, live[p], i, s);
    forall b | b in held && b != p - HEADER
      ensures b + held[b] <= |m| && Region(m', b, held[b]) == Region(m, b, held[b])
    {
      BookEntry(held, |m|, b);
      BooksDisjoint(held, |m|, p - HEADER, b);
      WrittenElsewhere(m, p + i, s, b, held[b]);
    }
    forall q | q in live
      ensures Block(m', held, word, q, live[q])
    {
      if q != p {
        BooksDisjoint(held, |m|, p - HEADER, q - HEADER);
      }
      WrittenElsewhere(m, p + i, s, q - HEADER, word);
    }
    assert forall b :: b in held ==> b + held[b] <= |m| by {
      forall b | b in held
        ensures b + held[b] <= |m|
      {
        BookEntry(held, |m|, b);
      }
    }
  }

  lemma BooksDisjoint(held: Books, size: nat, b: nat, c: nat)
    requires GoodBooks(held, size) && b in held && c in held && b != c
    ensures Disjoint(b, held[b], c, held[c])
  {
  }

  /** The heap as C code sees it: each live pointer with the bytes behind it. */
  function BlocksOf(m: seq<byte>, live: Books): (r: map<nat, seq<byte>>)
    ensures r.Keys == live.Keys
  {
    map p | p in live :: if p + live[p] <= |m| then Region(m, p, live[p]) else []
  }

  /** The other clients of the allocator keep their blocks and their bytes. */
  ghost predicate ForeignKept(m: seq<byte>, held: Books, m': seq<byte>, held': Books, foreign: set<nat>) {
    |m| == |m'| &&
    forall b :: b in foreign && b in held && b + held[b] <= |m| ==>
      b in held' && held'[b] == held[b] && Region(m', b, held[b]) == Region(m, b, held[b])
  }

  /** What malloc does to the heap seen from C. */
  lemma MallocEffect(
      m: seq<byte>, held: Books, live: Books, foreign: set<nat>, word: nat, base: nat, n: nat)
    requires Inv(m, held, live, foreign, word) && 0 < word <= 8
    requires n > 0 && LayoutOk(word, n + HEADER) && Fits(held, |m|, base, n + HEADER)
    ensures base + |LittleEndian(n, word)| <= |m|
    ensures
      var m', held', live' := Written(m, base, LittleEndian(n, word)), held[base := n + HEADER], live[base + HEADER := n];
      && Inv(m', held', live', foreign, word)
      && ForeignKept(m, held, m', held', foreign)
      && base + HEADER + n <= |m|
      && (base + HEADER) % HEADER == 0 && base + HEADER !in live
      && BlocksOf(m', live') == BlocksOf(m, live)[base + HEADER := Region(m', base + HEADER, n)]
  {
    hide GoodBooks, FromLittleEndian, LittleEndian, Written, Region, LayoutOk, BlocksOf;
    MallocKeeps(m, held, live, foreign, word, base, n);
    var m' := Written(m, base, LittleEndian(n, word));
    forall p | p in live
      ensures p != base + HEADER && p + live[p] <= |m| && Region(m', p, live[p]) == Region(m, p, live[p])
    {
      var b := p - HEADER;
      assert Block(m, held, word, p, live[p]);
      BookEntry(held, |m|, b);
      assert Region(m', b, held[b]) == Region(m, b, held[b]);
      SubRegion(m, m', b, held[b], HEADER);
    }
    BlocksAdd(m, m', live, base + HEADER, n);
  }

  lemma BlocksAdd(m: seq<byte>, m': seq<byte>, live: Books, p: nat, n: nat)
    requires |m| == |m'| && p !in live && p + n <= |m|
    requires forall q :: q in live ==> q + live[q] <= |m| && Region(m', q, live[q]) == Region(m, q, live[q])
    ensures BlocksOf(m', live[p := n]) == BlocksOf(m, live)[p := Region(m', p, n)]
  {
    hide Region;
  }

  lemma SubRegion(m: seq<byte>, m': seq<byte>, b: nat, n: nat, i: nat)
    requires |m| == |m'| && b + n <= |m| && i <= n && Region(m, b, n) == Region(m', b, n)
    ensures Region(m, b + i, n - i) == Region(m', b + i, n - i)
  {
    assert Region(m, b + i, n - i) == Region(m, b, n)[i..];
    assert Region(m', b + i, n - i) == Region(m', b, n)[i..];
  }

  /** What free does: one block disappears, every other one keeps its bytes. */
  lemma FreeEffect(m: seq<byte>, held: Books, live: Books, foreign: set<nat>, word: nat, p: nat)
    requires Inv(m, held, live, foreign, word) && p in live
    ensures
      var held', live' := held - {p - HEADER}, live - {p};
      && Inv(m, held', live', foreign, word)
      && ForeignKept(m, held, m, held', foreign)
      && BlocksOf(m, live') == BlocksOf(m, live) - {p}
      && p - HEADER in held && held[p - HEADER] == live[p] + HEADER
      && p + live[p] <= |m| && word <= HEADER < p
      && FromLittleEndian(Region(m, p - HEADER, word)) == live[p]
      && LayoutOk(word, live[p] + HEADER)
  {
    hide GoodBooks, FromLittleEndian, Region, LayoutOk;
    FreeKeeps(m, held, live, foreign, word, p);
  }

  /** Where a live block sits in its allocation. */
  lemma LiveIsHeld(m: seq<byte>, held: Books, live: Books, foreign: set<nat>, word: nat, q: nat)
    requires Inv(m, held, live, foreign, word) && q in live
    ensures HEADER < q && q - HEADER in held && held[q - HEADER] == live[q] + HEADER && q + live[q] <= |m|
    ensures q - HEADER !in foreign
  {
    hide GoodBooks, FromLittleEndian, Region, LayoutOk;
  }

  /** What a write inside a live block does. */
  lemma WriteEffect(m: seq<byte>, held: Books, live: Books, foreign: set<nat>, word: nat, p: nat, i: nat, s: seq<byte>)
    requires Inv(m, held, live, foreign, word) && 0 < word <= 8
    requires p in live && i + |s| <= live[p]
    ensures p + live[p] <= |m|
    ensures
      var m' := Written(m, p + i, s);
      && Inv(m', held, live, foreign, word)
      && ForeignKept(m, held, m', held, foreign)
      && BlocksOf(m', live) == BlocksOf(m, live)[p := Written(Region(m, p, live[p]), i, s)]
  {
    hide Inv, Written, Region, BlocksOf;
    LiveIsHeld(m, held, live, foreign, word, p);
    WriteKeeps(m, held, live, foreign, word, p, i, s);
    var m' := Written(m, p + i, s);
    forall q | q in live && q != p
      ensures q + live[q] <= |m| && Region(m', q, live[q]) == Region(m, q, live[q])
    {
      LiveIsHeld(m, held, live, foreign, word, q);
      SubRegion(m, m', q - HEADER, held[q - HEADER], HEADER);
    }
    BlocksWrite(m, m', live, p, Written(Region(m, p, live[p]), i, s));
  }

  lemma BlocksWrite(m: seq<byte>, m': seq<byte>, live: Books, p: nat, s: seq<byte>)
    requires |m| == |m'| && p in live && p + live[p] <= |m| && Region(m', p, live[p]) == s
    requires forall q :: q in live && q != p ==> q + live[q] <= |m| && Region(m', q, live[q]) == Region(m, q, live[q])
    ensures BlocksOf(m', live) == BlocksOf(m, live)[p := s]
  {
    hide Region;
  }

  // ---------- The other clients of the allocator ----------

  /** Another client takes a block. */
  lemma ForeignAllocKeeps(
      m: seq<byte>, held: Books, live: Books, foreign: set<nat>, word: nat, base: nat, total: nat)
    requires Inv(m, held, live, foreign, word) && Fits(held, |m|, base, total) && total > 0
    ensures Inv(m, held[base := total], live, foreign + {base}, word)
  {
    hide GoodBooks, FromLittleEndian, Region, LayoutOk, Fits;
    assert base !in held by { FitsNew(held, |m|, base, total); }
    GrowBooks(held, |m|, base, total);
    var held' := held[base := total];
    forall p | p in live
      ensures Block(m, held', word, p, live[p]) && p - HEADER !in foreign + {base}
    {
      assert Block(m, held, word, p, live[p]);
    }
  }

  lemma FitsNew(held: Books, size: nat, base: nat, total: nat)
    requires Fits(held, size, base, total)
    ensures base !in held
  {
  }

  /** Another client gives a block back. */
  lemma ForeignFreeKeeps(m: seq<byte>, held: Books, live: Books, foreign: set<nat>, word: nat, base: nat)
    requires Inv(m, held, live, foreign, word) && base in foreign
    ensures base in held && Inv(m, held - {base}, live, foreign - {base}, word)
  {
    hide GoodBooks, FromLittleEndian, Region, LayoutOk;
    ShrinkBooks(held, |m|, base);
    var held' := held - {base};
    forall p | p in live
      ensures Block(m, held', word, p, live[p]) && p - HEADER !in foreign - {base}
    {
      assert Block(m, held, word, p, live[p]) && p - HEADER != base;
    }
  }

  /** Another client writes inside its own block. */
  lemma ForeignWriteKeeps(
      m: seq<byte>, held: Books, live: Books, foreign: set<nat>, word: nat, base: nat, i: nat, s: seq<byte>)
    requires Inv(m, held, live, foreign, word) && word <= HEADER
    requires base in foreign && base in held && i + |s| <= held[base]
    ensures base + held[base] <= |m|
    ensures
      var m' := Written(m, base + i, s);
      Inv(m', held, live, foreign, word) && BlocksOf(m', live) == BlocksOf(m, live)
  {
    hide GoodBooks, FromLittleEndian, Written, Region, LayoutOk, BlocksOf;
    BookEntry(held, |m|, base);
    var m' := Written(m, base + i, s);
    forall p | p in live
      ensures Block(m', held, word, p, live[p])
      ensures p + live[p] <= |m| && Region(m', p, live[p]) == Region(m, p, live[p])
    {
      assert Block(m, held, word, p, live[p]);
      BookEntry(held, |m|, p - HEADER);
      BooksDisjoint(held, |m|, base, p - HEADER);
      WrittenElsewhere(m, base + i, s, p - HEADER, word);
      WrittenElsewhere(m, base + i, s, p, live[p]);
    }
    BlocksSame(m, m', live);
  }

  lemma BlocksSame(m: seq<byte>, m': seq<byte>, live: Books)
    requires |m| == |m'|
    requires forall q :: q in live ==> q + live[q] <= |m| && Region(m', q, live[q]) == Region(m, q, live[q])
    ensures BlocksOf(m', live) == BlocksOf(m, live)
  {
    hide Region;
  }

  /** A size that passes the layout check was not cut by the saturating addition; one that does not pass is refused. */
  lemma NoSaturation(word: nat, n: nat)
    ensures LayoutOk(word, SaturatingAdd(word, n, HEADER)) <==> LayoutOk(word, n + HEADER)
    ensures LayoutOk(word, n + HEADER) ==> SaturatingAdd(word, n, HEADER) == n + HEADER
  {
    hide Pow256;
  }

  class SizedHeap {
    const word: nat // bytes of a usize
    const memory: array<byte> // the address space
    const backing: (nat, Books, nat) -> nat // the allocator's answers, by call, books and size
    var calls: nat
    var held: Books
    ghost var live: Books
    ghost var foreign: set<nat>

    ghost predicate Valid()
      reads this, memory
    {
      0 < word <= 8 && Inv(memory[..], held, live, foreign, word)
    }

    ghost function Blocks(): map<nat, seq<byte>>
      reads this, memory
    {
      BlocksOf(memory[..], live)
    }

    /** The other clients of the backing allocator see no change. */
    twostate predicate ForeignUntouched()
      reads this, memory
    {
      foreign == old(foreign) && ForeignKept(old(memory[..]), old(held), memory[..], held, foreign)
    }

    /** A heap in an address space where other clients hold `others`; nothing is assumed of the allocator's answers. */
    constructor (word: nat, size: nat, others: Books, backing: (nat, Books, nat) -> nat)
      requires 0 < word <= 8 && GoodBooks(others, size)
      ensures Valid() && fresh(memory)
      ensures this.word == word && memory.Length == size && this.backing == backing
      ensures live == map[] && held == others && foreign == others.Keys && Blocks() == map[]
    {
      this.word, this.backing, calls := word, backing, 0;
      memory := new byte[size];
      held, live, foreign := others, map[], others.Keys;
    }

    /** The next answer of the backing allocator: null, or any block that fits.  An answer that does not fit counts as
        null; that is its whole contract. */
    function Answer(total: nat): (base: nat)
      reads this, memory
      ensures base == 0 || Fits(held, memory.Length, base, total)
    {
      hide Fits;
      var base := backing(calls, held, total);
      if base != 0 && Fits(held, memory.Length, base, total) then base else 0
    }

    /** Whether a block of n bytes cannot be had now: its size is refused, or the allocator declines. */
    predicate Refused(n: nat)
      reads this, memory
    {
      !LayoutOk(word, n + HEADER) || Answer(n + HEADER) == 0
    }

    method BackingAlloc(total: nat) returns (base: nat)
      requires total > 0
      modifies this`held, this`calls
      ensures base == old(Answer(total))
      ensures held == if base == 0 then old(held) else old(held)[base := total]
    {
      base := Answer(total);
      calls := calls + 1;
      if base != 0 {
        held := held[base := total];
      }
    }

    /** The backing allocator takes a block back only with the base and layout it handed out. */
    method BackingDealloc(base: nat, total: nat)
      requires base in held && held[base] == total
      modifies this`held
      ensures held == old(held) - {base}
    {
      held := held - {base};
    }

    /** A run of byte stores. */
    method Store(a: nat, s: seq<byte>)
      requires a + |s| <= memory.Length
      modifies memory
      ensures memory[..] == Written(old(memory[..]), a, s)
    {
      hide Written;
      WriteNothing(memory[..], a);
      var i := 0;
      while i < |s|
        invariant 0 <= i <= |s|
        invariant memory[..] == Written(old(memory[..]), a, s[..i])
      {
        ghost var before := memory[..];
        memory[a + i] := s[i];
        OneMore(old(memory[..]), a, s, i, before, memory[..]);
        i := i + 1;
      }
      assert s[..|s|] == s;
    }

    /** `malloc`.  The pointer is null exactly when the size is refused or the allocator declines. */
    method Malloc(requested: nat) returns (p: nat)
      requires Valid() && requested <= UsizeMax(word)
      modifies this`held, this`live, this`calls, memory
      ensures p == 0 <==> old(Refused(if requested == 0 then 1 else requested))
      ensures Valid() && ForeignUntouched()
      ensures p == 0 ==> live == old(live) && held == old(held) && memory[..] == old(memory[..])
      ensures p != 0 ==>
        var n := if requested == 0 then 1 else requested;
        p % 16 == 0 && p !in old(live) && live == old(live)[p := n] && p + n <= memory.Length &&
        Blocks() == old(Blocks())[p := Region(memory[..], p, n)]
    {
      hide Inv, LittleEndian, Written, Region, LayoutOk, SaturatingAdd, UsizeMax, BlocksOf, Fits, Answer;
      var size := if requested == 0 then 1 else requested;
      var total := SaturatingAdd(word, size, HEADER);
      NoSaturation(word, size);
      if !LayoutOk(word, total) {
        ForeignSame(memory[..], held, foreign);
        return 0;
      }
      var base := BackingAlloc(total);
      if base == 0 {
        ForeignSame(memory[..], held, foreign);
        return 0;
      }
      MallocEffect(memory[..], old(held), live, foreign, word, base, size);
      Store(base, LittleEndian(size, word));
      live := live[base + HEADER := size];
      return base + HEADER;
    }

    /** `free`: the size in the header yields exactly the base and layout that malloc obtained. */
    method Free(p: nat)
      requires Valid() && (p != 0 ==> p in live)
      modifies this`held, this`live
      ensures Valid() && ForeignUntouched()
      ensures p == 0 ==> live == old(live) && held == old(held)
      ensures p != 0 ==>
        live == old(live) - {p} && held == old(held) - {p - HEADER} && Blocks() == old(Blocks()) - {p}
    {
      hide Inv, Region, LayoutOk, SaturatingAdd, UsizeMax, BlocksOf, FromLittleEndian;
      if p == 0 {
        ForeignSame(memory[..], held, foreign);
        return;
      }
      FreeEffect(memory[..], held, live, foreign, word, p);
      var base := p - HEADER;
      var size := FromLittleEndian(Region(memory[..], base, word));
      var total := SaturatingAdd(word, size, HEADER);
      NoSaturation(word, size);
      if !LayoutOk(word, total) {
        return;
      }
      BackingDealloc(base, total);
      live := live - {p};
    }

    /** `calloc`: null on overflow of the product, otherwise a block whose requested bytes are zero. */
    method Calloc(nmemb: nat, size: nat) returns (p: nat)
      requires Valid() && nmemb <= UsizeMax(word) && size <= UsizeMax(word)
      modifies this`held, this`live, this`calls, memory
      ensures p == 0 <==>
        nmemb * size > UsizeMax(word) || old(Refused(if nmemb * size == 0 then 1 else nmemb * size))
      ensures Valid() && ForeignUntouched()
      ensures p == 0 ==> live == old(live) && held == old(held) && memory[..] == old(memory[..])
      ensures p != 0 ==>
        var n := if nmemb * size == 0 then 1 else nmemb * size;
        nmemb * size <= UsizeMax(word) &&
        p % 16 == 0 && p !in old(live) && live == old(live)[p := n] && p in Blocks() &&
        Blocks() == old(Blocks())[p := Blocks()[p]] &&
        |Blocks()[p]| == n && (nmemb * size != 0 ==> Blocks()[p] == Zeros(n))
    {
      hide Inv, Region, LayoutOk, UsizeMax, BlocksOf, Written, Zeros, Refused;
      var count := nmemb * size;
      if count > UsizeMax(word) {
        ForeignSame(memory[..], held, foreign);
        return 0;
      }
      p := Malloc(count);
      if p != 0 {
        var n := if count == 0 then 1 else count;
        ghost var m, fresh_ := memory[..], Region(memory[..], p, n);
        WriteEffect(m, held, live, foreign, word, p, 0, Zeros(count));
        Store(p, Zeros(count));
        ForeignTwice(old(memory[..]), old(held), m, held, memory[..], held, foreign);
        ZeroedBlock(fresh_, count);
        MapOverwrite(old(Blocks()), p, fresh_, Written(fresh_, 0, Zeros(count)));
      }
    }

    /** `copy_nonoverlapping`. */
    method CopyBytes(src: nat, dst: nat, n: nat)
      requires src + n <= memory.Length && dst + n <= memory.Length && Disjoint(src, n, dst, n)
      modifies memory
      ensures memory[..] == Written(old(memory[..]), dst, Region(old(memory[..]), src, n))
    {
      hide Region, Written;
      ghost var m := memory[..];
      ghost var s := Region(m, src, n);
      RegionAt(m, src, n);
      WriteNothing(m, dst);
      var i := 0;
      while i < n
        invariant 0 <= i <= n
        invariant memory[..] == Written(m, dst, s[..i])
      {
        ghost var before := memory[..];
        ReadApart(m, dst, s[..i], src + i);
        assert memory[src + i] == s[i];
        memory[dst + i] := memory[src + i];
        OneMore(m, dst, s, i, before, memory[..]);
        i := i + 1;
      }
      assert s[..n] == s;
    }

    /** `realloc`.  A failed call leaves the old block as it was; a successful one keeps the common prefix. */
    method Realloc(p: nat, newSize: nat) returns (q: nat)
      requires Valid() && newSize <= UsizeMax(word) && (p != 0 ==> p in live)
      modifies this`held, this`live, this`calls, memory
      ensures p == 0 || newSize != 0 ==> (q == 0 <==> old(Refused(if newSize == 0 then 1 else newSize)))
      ensures Valid() && ForeignUntouched()
      ensures q == 0 && (p == 0 || newSize != 0) ==>
        live == old(live) && held == old(held) && memory[..] == old(memory[..])
      ensures p != 0 && newSize == 0 ==>
        q == 0 && live == old(live) - {p} && held == old(held) - {p - HEADER} && Blocks() == old(Blocks()) - {p}
      ensures q != 0 ==>
        var n := if newSize == 0 then 1 else newSize;
        q % 16 == 0 && q !in old(live) && live == (old(live) - {p})[q := n] && q in Blocks() &&
        Blocks() == (old(Blocks()) - {p})[q := Blocks()[q]] && |Blocks()[q]| == n
      ensures q != 0 && p != 0 ==>
        p in old(Blocks()) &&
        var k := if |old(Blocks())[p]| < newSize then |old(Blocks())[p]| else newSize;
        Blocks()[q][..k] == old(Blocks())[p][..k]
    {
      hide Inv, Region, LayoutOk, UsizeMax, BlocksOf, Written, FromLittleEndian, SaturatingAdd, Refused;
      if p == 0 {
        q := Malloc(newSize);
        assert 0 !in old(live) by { NullIsNotLive(old(memory[..]), old(held), old(live), old(foreign), word); }
        NullBlock(old(memory[..]), old(live));
        return;
      }
      if newSize == 0 {
        Free(p);
        return 0;
      }
      FreeEffect(memory[..], held, live, foreign, word, p);
      var oldSize := FromLittleEndian(Region(memory[..], p - HEADER, word));
      ghost var m0, held0, live0 := memory[..], held, live;
      q := Malloc(newSize);
      if q == 0 {
        return 0;
      }
      var n := if oldSize < newSize then oldSize else newSize;
      ghost var m1, held1, live1 := memory[..], held, live;
      ghost var target := Region(m1, q, newSize);
      LiveApart(m1, held1, live1, foreign, word, p, q);
      CopyApart(p, live1[p], q, live1[q], n);
      CopyBytes(p, q, n);
      ghost var copied := Region(m1, p, n);
      WriteEffect(m1, held1, live1, foreign, word, q, 0, copied);
      ghost var m2 := memory[..];
      Free(p);
      ForeignTwice(m0, held0, m1, held1, m2, held1, foreign);
      ForeignTwice(m0, held0, m2, held1, memory[..], held, foreign);
      CopyResult(m0, live0, m1, live1, p, q, n, newSize);
      MapReplace(BlocksOf(m0, live0), p, q, target, Written(target, 0, copied));
      MapReplace(live0, p, q, newSize, newSize);
    }

    /** Between calls from C the allocator's other clients take, give back and write blocks of their own; C code sees
        nothing of it. */
    method ForeignAlloc(total: nat) returns (base: nat)
      requires Valid() && total > 0
      modifies this`held, this`foreign, this`calls
      ensures Valid() && Blocks() == old(Blocks())
      ensures base == old(Answer(total))
      ensures base == 0 ==> held == old(held) && foreign == old(foreign)
      ensures base != 0 ==> held == old(held)[base := total] && foreign == old(foreign) + {base}
    {
      hide Inv, Fits, BlocksOf, Answer;
      base := BackingAlloc(total);
      if base != 0 {
        ForeignAllocKeeps(memory[..], old(held), live, foreign, word, base, total);
        foreign := foreign + {base};
      }
    }

    method ForeignFree(base: nat)
      requires Valid() && base in foreign
      modifies this`held, this`foreign
      ensures Valid() && Blocks() == old(Blocks())
      ensures held == old(held) - {base} && foreign == old(foreign) - {base}
    {
      hide Inv, BlocksOf;
      ForeignFreeKeeps(memory[..], held, live, foreign, word, base);
      BackingDealloc(base, held[base]);
      foreign := foreign - {base};
    }

    method ForeignStore(base: nat, i: nat, s: seq<byte>)
      requires Valid() && base in foreign && base in held && i + |s| <= held[base]
      modifies memory
      ensures Valid() && Blocks() == old(Blocks())
      ensures base + i + |s| <= memory.Length && memory[..] == Written(old(memory[..]), base + i, s)
    {
      hide Inv, BlocksOf, Written;
      ForeignWriteKeeps(memory[..], held, live, foreign, word, base, i, s);
      Store(base + i, s);
    }

    /** C code storing into a block it owns. */
    method UserStore(p: nat, i: nat, s: seq<byte>)
      requires Valid() && p in live && i + |s| <= live[p]
      modifies memory
      ensures Valid() && ForeignUntouched() && p in old(Blocks())
      ensures i + |s| <= |old(Blocks())[p]| && Blocks() == old(Blocks())[p := Written(old(Blocks())[p], i, s)]
    {
      hide Inv, Region, Written;
      WriteEffect(memory[..], held, live, foreign, word, p, i, s);
      Store(p + i, s);
    }
  }

  lemma ReadApart(m: seq<byte>, a: nat, s: seq<byte>, j: nat)
    requires a + |s| <= |m| && j < |m| && (j < a || a + |s| <= j)
    ensures Written(m, a, s)[j] == m[j]
  {
  }

  lemma WriteNothing(m: seq<byte>, a: nat)
    requires a <= |m|
    ensures Written(m, a, []) == m
  {
  }

  lemma OneMore(m: seq<byte>, a: nat, s: seq<byte>, i: nat, before: seq<byte>, after: seq<byte>)
    requires i < |s| && a + |s| <= |m|
    requires before == Written(m, a, s[..i]) && after == before[a + i := s[i]]
    ensures after == Written(m, a, s[..i + 1])
  {
  }

  lemma RegionAt(m: seq<byte>, a: nat, n: nat)
    requires a + n <= |m|
    ensures forall i :: 0 <= i < n ==> Region(m, a, n)[i] == m[a + i]
  {
  }

  lemma NullIsNotLive(m: seq<byte>, held: Books, live: Books, foreign: set<nat>, word: nat)
    requires Inv(m, held, live, foreign, word)
    ensures 0 !in live
  {
    hide GoodBooks, FromLittleEndian, Region, LayoutOk;
  }

  lemma NullBlock(m: seq<byte>, live: Books)
    requires 0 !in live
    ensures live - {0} == live && BlocksOf(m, live) - {0} == BlocksOf(m, live)
  {
  }

  /** Live user regions are aligned and pairwise disjoint. */
  lemma LiveApart(m: seq<byte>, held: Books, live: Books, foreign: set<nat>, word: nat, p: nat, q: nat)
    requires Inv(m, held, live, foreign, word) && p in live && q in live && p != q
    ensures Disjoint(p, live[p], q, live[q]) && p % HEADER == 0 && q % HEADER == 0
    ensures p + live[p] <= |m| && q + live[q] <= |m|
  {
    hide GoodBooks, FromLittleEndian, Region, LayoutOk;
    BooksDisjoint(held, |m|, p - HEADER, q - HEADER);
    BookEntry(held, |m|, p - HEADER);
    BookEntry(held, |m|, q - HEADER);
  }

  lemma CopyApart(p: nat, x: nat, q: nat, y: nat, n: nat)
    requires Disjoint(p, x, q, y) && n <= x && n <= y
    ensures Disjoint(p, n, q, n)
  {
  }

  lemma CopyResult(
      m0: seq<byte>, live0: Books, m1: seq<byte>, live1: Books, p: nat, q: nat, n: nat, newSize: nat)
    requires p in live0 && q !in live0 && live1 == live0[q := newSize] && p + live0[p] <= |m1| == |m0|
    requires q + newSize <= |m1|
    requires BlocksOf(m1, live1) == BlocksOf(m0, live0)[q := Region(m1, q, newSize)]
    requires n == if live0[p] < newSize then live0[p] else newSize
    ensures
      var r := Written(Region(m1, q, newSize), 0, Region(m1, p, n));
      |r| == newSize && |BlocksOf(m0, live0)[p]| == live0[p] && r[..n] == BlocksOf(m0, live0)[p][..n]
  {
    assert BlocksOf(m1, live1)[p] == BlocksOf(m0, live0)[p];
    assert Region(m1, p, n) == Region(m1, p, live0[p])[..n];
  }

  lemma MapReplace<K, V>(m: map<K, V>, p: K, q: K, v: V, w: V)
    requires p in m && q !in m
    ensures m[q := v][q := w] - {p} == (m - {p})[q := w]
  {
  }

  /** The sum of all entries. */
  ghost function Sum(m: Books): nat {
    if m == map[] then 0
    else
      var k :| k in m;
      m[k] + Sum(m - {k})
  }

  /** Any entry can be taken out first. */
  lemma {:induction false} SumWithout(m: Books, k: nat)
    requires k in m
    ensures Sum(m) == m[k] + Sum(m - {k})
    decreases |m|
  {
    var c :| c in m && Sum(m) == m[c] + Sum(m - {c});
    if c != k {
      Fewer(m, c);
      Fewer(m, k);
      SumWithout(m - {c}, k);
      SumWithout(m - {k}, c);
      assert m - {c} - {k} == m - {k} - {c};
    }
  }

  lemma Fewer<V>(m: map<nat, V>, k: nat)
    requires k in m
    ensures |m - {k}| == |m| - 1
  {
    assert (m - {k}).Keys == m.Keys - {k};
    assert |m| == |m.Keys| && |m - {k}| == |(m - {k}).Keys|;
  }

  /** The entries that belong to C code. */
  function Own(held: Books, foreign: set<nat>): Books {
    map b | b in held && b !in foreign :: held[b]
  }

  /** Each block of `own` backs exactly one live pointer, 16 bytes further on, and is 16 bytes larger. */
  ghost predicate Backs(own: Books, live: Books) {
    (forall b :: b in own ==> b + HEADER in live && own[b] == live[b + HEADER] + HEADER) &&
    (forall p :: p in live ==> p >= HEADER && p - HEADER in own)
  }

  lemma {:induction false} BackedBytes(own: Books, live: Books)
    requires Backs(own, live)
    ensures Sum(own) == Sum(live) + HEADER * |live|
    decreases |live|
  {
    if live == map[] {
      assert own == map[];
    } else {
      var p :| p in live;
      assert p >= HEADER;
      var b := p - HEADER;
      hide Sum, Backs;
      BackedRest(own, live, p);
      Fewer(live, p);
      SumWithout(live, p);
      SumWithout(own, b);
      BackedBytes(own - {b}, live - {p});
    }
  }

  lemma BackedRest(own: Books, live: Books, p: nat)
    requires Backs(own, live) && p in live
    ensures p >= HEADER && p - HEADER in own && own[p - HEADER] == live[p] + HEADER
    ensures Backs(own - {p - HEADER}, live - {p})
  {
  }

  lemma HeapBacks(m: seq<byte>, held: Books, live: Books, foreign: set<nat>, word: nat)
    requires Inv(m, held, live, foreign, word)
    ensures Backs(Own(held, foreign), live)
    ensures live == map[] ==> held.Keys == foreign
  {
    hide GoodBooks, Block;
    forall p | p in live
      ensures p >= HEADER && p - HEADER in Own(held, foreign)
    {
      LiveIsHeld(m, held, live, foreign, word, p);
    }
    forall b | b in Own(held, foreign)
      ensures b + HEADER in live && held[b] == live[b + HEADER] + HEADER
    {
      LiveIsHeld(m, held, live, foreign, word, b + HEADER);
    }
  }

  /** Nothing is leaked and nothing is hidden: in every valid heap the bytes that the allocator has handed out to C code
      are the sizes of the live blocks plus 16 for each. */
  lemma BytesHeld(m: seq<byte>, held: Books, live: Books, foreign: set<nat>, word: nat)
    requires Inv(m, held, live, foreign, word)
    ensures Sum(Own(held, foreign)) == Sum(live) + HEADER * |live|
    ensures live == map[] ==> held.Keys == foreign
  {
    hide Inv, Own, Backs, Sum;
    HeapBacks(m, held, live, foreign, word);
    BackedBytes(Own(held, foreign), live);
  }

  lemma ForeignSame(m: seq<byte>, held: Books, foreign: set<nat>)
    ensures ForeignKept(m, held, m, held, foreign)
  {
  }

  lemma ForeignTwice(
      m: seq<byte>, held: Books, m1: seq<byte>, held1: Books, m2: seq<byte>, held2: Books, foreign: set<nat>)
    requires ForeignKept(m, held, m1, held1, foreign) && ForeignKept(m1, held1, m2, held2, foreign)
    ensures ForeignKept(m, held, m2, held2, foreign)
  {
    hide Region;
  }

  lemma ZeroedBlock(s: seq<byte>, count: nat)
    requires |s| == if count == 0 then 1 else count
    ensures |Written(s, 0, Zeros(count))| == |s|
    ensures count != 0 ==> Written(s, 0, Zeros(count)) == Zeros(count)
  {
  }

  lemma MapOverwrite<K, V>(m: map<K, V>, k: K, v: V, w: V)
    ensures m[k := v][k := w] == m[k := w]
  {
  }

  /** The largest layouts of the 64-bit and the 32-bit target: what rounds up to 16 without passing `isize::MAX`. */
  lemma LayoutLimits(total: nat)
    ensures LayoutOk(8, total) <==> total <= 0x7FFF_FFFF_FFFF_FFF0
    ensures LayoutOk(4, total) <==> total <= 0x7FFF_FFF0
  {
    assert Pow256(2) == 0x1_0000 && Pow256(4) == 0x1_0000_0000;
    assert Pow256(6) == 0x1_0000_0000_0000 && Pow256(8) == 0x1_0000_0000_0000_0000;
  }

  /** The header of a block, byte by byte: 16 bytes before the pointer, least significant byte first. */
  lemma HeaderBytes(n: nat, width: nat)
    requires width > 0
    ensures LittleEndian(n, width)[0] == n % 256 && LittleEndian(n, width)[1..] == LittleEndian(n / 256, width - 1)
    ensures HEADER == 16
  {
  }
}
