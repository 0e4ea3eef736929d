/** Software breakpoints as patched words: what memory holds with the patches taken out, and
    what the decode cache may hold beside them. */
module Patching {
  import opened Words
  import opened FlatMemory
  import opened Machine
  import opened Controller

  /** A byte range that no breakpoint word overlaps. */
  ghost predicate ClearOf(bps: Breakpoints, a: Addr, n: int)
  {
    forall b :: b in bps ==> Apart(a, n, b, 4)
  }

  ghost predicate Spaced(bps: Breakpoints)
  {
    forall a, b :: a in bps && b in bps && a != b ==> Apart(a, 4, b, 4)
  }

  /** Every breakpoint has its ebreak in place. */
  ghost predicate Planted(m: Memory, bps: Breakpoints)
  {
    forall a :: a in bps ==> bps[a].enabled && LoadWord(m, a) == EBREAK
  }

  /** The byte at k with the patched words restored. */
  function RestoredByte(m: Memory, bps: Breakpoints, k: Addr): int
  {
    if k in bps then ByteAt(bps[k].saved, 0)
    else if k - 1 in bps then ByteAt(bps[k - 1].saved, 1)
    else if k - 2 in bps then ByteAt(bps[k - 2].saved, 2)
    else if k - 3 in bps then ByteAt(bps[k - 3].saved, 3)
    else Get(m, k)
  }

  /** The memory `plain` is what the patched memory would be without its breakpoints. */
  ghost predicate Restores(m: Memory, bps: Breakpoints, plain: Memory)
  {
    forall k :: Get(plain, k) == RestoredByte(m, bps, k)
  }

  /** A breakpoint's word can be told from the restored memory. */
  lemma SavedWord(m: Memory, bps: Breakpoints, plain: Memory, a: Addr)
    requires Restores(m, bps, plain) && Spaced(bps) && a in bps
    ensures LoadWord(plain, a) == bps[a].saved
  {
    BytesOf(bps[a].saved);
    assert Get(plain, a) == RestoredByte(m, bps, a);
    assert Get(plain, a + 1) == RestoredByte(m, bps, a + 1);
    assert Get(plain, a + 2) == RestoredByte(m, bps, a + 2);
    assert Get(plain, a + 3) == RestoredByte(m, bps, a + 3);
  }

  lemma RestoredOutside(m: Memory, bps: Breakpoints, a: Addr, n: int)
    requires ClearOf(bps, a, n)
    ensures forall k :: a <= k < a + n ==> RestoredByte(m, bps, k) == Get(m, k)
  {
    forall k | a <= k < a + n
      ensures RestoredByte(m, bps, k) == Get(m, k)
    {
      forall j | j in bps
        ensures k < j || j + 4 <= k
      {
        assert Apart(a, n, j, 4);
      }
    }
  }

  /** Reads outside the patched words see the restored memory. */
  lemma SameOutside(m: Memory, bps: Breakpoints, plain: Memory, a: Addr, n: int)
    requires Restores(m, bps, plain) && ClearOf(bps, a, n)
    ensures forall k :: a <= k < a + n ==> Get(m, k) == Get(plain, k)
  {
    RestoredOutside(m, bps, a, n);
  }

  /** A store outside the patched words is the same store in the restored memory. */
  lemma StoreOutside(m: Memory, bps: Breakpoints, plain: Memory, p: Poke)
    requires Restores(m, bps, plain) && ClearOf(bps, p.a, p.n)
    ensures Restores(Store(m, p.a, p.n, p.v), bps, Store(plain, p.a, p.n, p.v))
  {
    RestoredOutside(Store(m, p.a, p.n, p.v), bps, p.a, p.n);
    forall k
      ensures Get(Store(plain, p.a, p.n, p.v), k) == RestoredByte(Store(m, p.a, p.n, p.v), bps, k)
    {
      hide ByteAt;
      assert Get(plain, k) == RestoredByte(m, bps, k);
    }
  }

  /** Planting a breakpoint leaves the restored memory alone. */
  lemma PlantRestores(m: Memory, bps: Breakpoints, plain: Memory, a: Addr)
    requires Restores(m, bps, plain) && ClearOf(bps, a, 4)
    ensures Restores(Store(m, a, 4, EBREAK), bps[a := Breakpoint(LoadWord(m, a), true)], plain)
  {
    BytesOfLoad(m, a);
    RestoredOutside(m, bps, a, 4);
    var m', bps' := Store(m, a, 4, EBREAK), bps[a := Breakpoint(LoadWord(m, a), true)];
    forall k
      ensures Get(plain, k) == RestoredByte(m', bps', k)
    {
      hide ByteAt, LoadWord;
      assert Get(plain, k) == RestoredByte(m, bps, k);
    }
  }

  /** Writing a breakpoint's saved word back and dropping the breakpoint leaves it alone too. */
  lemma LiftRestores(m: Memory, bps: Breakpoints, plain: Memory, a: Addr)
    requires Restores(m, bps, plain) && Spaced(bps) && a in bps
    ensures Restores(Store(m, a, 4, bps[a].saved), bps - {a}, plain)
    ensures ClearOf(bps - {a}, a, 4)
  {
    var m', bps' := Store(m, a, 4, bps[a].saved), bps - {a};
    forall b | b in bps' ensures Apart(a, 4, b, 4) { assert b in bps && b != a; }
    RestoredOutside(m', bps', a, 4);
    forall k
      ensures Get(plain, k) == RestoredByte(m', bps', k)
    {
      hide ByteAt;
      assert Get(plain, k) == RestoredByte(m, bps, k);
      if a <= k < a + 4 {
        assert Get(m', k) == ByteAt(bps[a].saved, k - a);
        OnlyPatchAt(bps, a, k);
      }
    }
  }

  /** A byte of a breakpoint's word belongs to no other breakpoint. */
  lemma OnlyPatchAt(bps: Breakpoints, a: Addr, k: Addr)
    requires Spaced(bps) && a in bps && a <= k < a + 4
    ensures k in bps ==> k == a
    ensures k - 1 in bps ==> k - 1 == a
    ensures k - 2 in bps ==> k - 2 == a
    ensures k - 3 in bps ==> k - 3 == a
  {
  }

  // ---------------------------------------------------------------- the cache

  /** Every cached instruction is what its address would decode to now, in the slot it belongs to. */
  ghost predicate Coherent(isa: InstructionSet, cache: Cache, m: Memory)
  {
    forall s :: s in cache ==> s == Slot(cache[s].address) && cache[s] == Fetch(isa, m, cache[s].address)
  }

  /** No cached word overlaps the byte range. */
  ghost predicate CacheClearOf(cache: Cache, a: Addr, n: int)
  {
    forall s :: s in cache ==> Apart(cache[s].address, 4, a, n)
  }

  /** No cached word overlaps the word at a, except the one at exactly that address. */
  ghost predicate CacheClearBut(cache: Cache, a: Addr)
  {
    forall s :: s in cache ==> cache[s].address == a || Apart(cache[s].address, 4, a, 4)
  }

  lemma FetchSame(isa: InstructionSet, m: Memory, m': Memory, a: Word)
    requires forall k :: a <= k < a + 4 ==> Get(m, k) == Get(m', k)
    ensures Fetch(isa, m, a) == Fetch(isa, m', a)
  {
    LoadSame(m, m', a, 4);
  }

  /** A store that misses every cached word keeps the cache coherent. */
  lemma StoreKeepsCoherent(isa: InstructionSet, cache: Cache, m: Memory, p: Poke)
    requires Coherent(isa, cache, m) && CacheClearOf(cache, p.a, p.n)
    ensures Coherent(isa, cache, Store(m, p.a, p.n, p.v))
  {
    forall s | s in cache
      ensures cache[s] == Fetch(isa, Store(m, p.a, p.n, p.v), cache[s].address)
    {
      FetchSame(isa, m, Store(m, p.a, p.n, p.v), cache[s].address);
    }
  }

  /** A word written with the matching invalidation keeps the cache coherent. */
  lemma CodeWriteKeepsCoherent(isa: InstructionSet, cache: Cache, m: Memory, a: Addr, w: Word)
    requires Coherent(isa, cache, m) && CacheClearBut(cache, a)
    ensures Coherent(isa, Invalidate(cache, a), Store(m, a, 4, w))
    ensures CacheClearOf(Invalidate(cache, a), a, 4)
    ensures forall s :: s in Invalidate(cache, a) ==> s in cache && cache[s] == Invalidate(cache, a)[s]
  {
    var cache' := Invalidate(cache, a);
    forall s | s in cache'
      ensures Apart(cache'[s].address, 4, a, 4)
    {
      assert s in cache && cache'[s] == cache[s] && s == Slot(cache[s].address);
    }
    assert Coherent(isa, cache', m);
    StoreKeepsCoherent(isa, cache', m, Poke(a, 4, w));
  }

  /** A lookup returns the decode of current memory and keeps the cache coherent. */
  lemma LookupCoherent(isa: InstructionSet, cache: Cache, m: Memory, pc: Word)
    requires Framed(isa) && Coherent(isa, cache, m)
    ensures Cached(isa, cache, m, pc) == Fetch(isa, m, pc)
    ensures Coherent(isa, Filled(isa, cache, m, pc), m)
    ensures forall s :: s in Filled(isa, cache, m, pc) ==>
              Filled(isa, cache, m, pc)[s].address == pc || (s in cache && Filled(isa, cache, m, pc)[s] == cache[s])
  {
  }

  /** When memory has changed with no invalidation, a cached instruction is right exactly if the word
      there now decodes like the word it was decoded from. */
  lemma CachedThroughWrites(isa: InstructionSet, cache: Cache, m: Memory, m': Memory, pc: Word)
    requires Coherent(isa, cache, m) && Hit(cache, pc)
    ensures Cached(isa, cache, m', pc) == Fetch(isa, m', pc)
            <==> isa.decode(pc, LoadWord(m, pc)) == isa.decode(pc, LoadWord(m', pc))
  {
  }

  /** The addresses whose instructions are cached. */
  function CodeOf(cache: Cache): set<Word>
  {
    set s | s in cache :: cache[s].address
  }

  /** The cached addresses after a fetch: the one fetched takes the place of any other in its slot. */
  function Fill(cached: set<Word>, pc: Word): set<Word>
  {
    (set w | w in cached && Slot(w) != Slot(pc)) + {pc}
  }

  /** The cached addresses after a code write. */
  function Drop(cached: set<Word>, a: Addr): set<Word>
  {
    set w | w in cached && w != a
  }

  lemma FilledCode(isa: InstructionSet, cache: Cache, m: Memory, pc: Word)
    requires Framed(isa) && Coherent(isa, cache, m)
    ensures CodeOf(Filled(isa, cache, m, pc)) == Fill(CodeOf(cache), pc)
  {
    var cache' := Filled(isa, cache, m, pc);
    LookupCoherent(isa, cache, m, pc);
    assert cache'[Slot(pc)].address == pc;
    forall w
      ensures w in CodeOf(cache') <==> w in Fill(CodeOf(cache), pc)
    {
      if w in CodeOf(cache') && w != pc {
        var s :| s in cache' && cache'[s].address == w;
        assert s == Slot(w) && s != Slot(pc);
        assert s in cache && cache[s].address == w;
      }
      if w in Fill(CodeOf(cache), pc) && w != pc {
        var s :| s in cache && cache[s].address == w;
        assert s == Slot(w) && s in cache' && cache'[s] == cache[s];
      }
    }
  }

  lemma InvalidatedCode(isa: InstructionSet, cache: Cache, m: Memory, a: Addr)
    requires Coherent(isa, cache, m)
    ensures CodeOf(Invalidate(cache, a)) == Drop(CodeOf(cache), a)
  {
    var cache' := Invalidate(cache, a);
    forall w
      ensures w in CodeOf(cache') <==> w in Drop(CodeOf(cache), a)
    {
      if w in CodeOf(cache') {
        var s :| s in cache' && cache'[s].address == w;
        assert s in cache && s == Slot(w);
      }
      if w in Drop(CodeOf(cache), a) {
        var s :| s in cache && cache[s].address == w;
        assert s == Slot(w) && s in cache';
      }
    }
  }
}
