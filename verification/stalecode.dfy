/** Stores over cached instructions, which nothing invalidates. */
module StaleCode {
  import opened Words
  import opened FlatMemory
  import opened Controller
  import opened Patching
  import M = Machine
  import Book = Manual
  import Spec = Refinement

  /** After any stores, of any widths and overlapping the instruction in any way, a cached instruction
      is what memory holds exactly when its four bytes are what they were. */
  lemma StoresOverCachedCode(illegalSize: Word, cache: Cache, m: Memory, pokes: seq<Poke>, pc: Word)
    requires Coherent(M.RV32(illegalSize), cache, m) && Hit(cache, pc) && Book.Supported(LoadWord(m, pc))
    ensures var isa, m' := M.RV32(illegalSize), StoreAll(m, pokes);
      Cached(isa, cache, m', pc) == M.Fetch(isa, m', pc) <==> LoadWord(m', pc) == LoadWord(m, pc)
  {
    hide Book.Supported, Store, Load;
    var isa, m' := M.RV32(illegalSize), StoreAll(m, pokes);
    CachedThroughWrites(isa, cache, m, m', pc);
    if isa.decode(pc, LoadWord(m, pc)) == isa.decode(pc, LoadWord(m', pc)) {
      Spec.DecodeInjective(illegalSize, pc, LoadWord(m, pc), LoadWord(m', pc));
    }
  }

  /** The next turn of the loop then executes what memory holds exactly when those bytes are unchanged. */
  lemma SameWordSameBytes(m: Memory, m': Memory, pc: Word)
    ensures LoadWord(m', pc) == LoadWord(m, pc) <==> forall k :: pc <= k < pc + 4 ==> Get(m', k) == Get(m, k)
  {
    BytesOfLoad(m, pc);
    BytesOfLoad(m', pc);
    if LoadWord(m', pc) == LoadWord(m, pc) {
      forall k | pc <= k < pc + 4
        ensures Get(m', k) == Get(m, k)
      {
        assert ByteAt(LoadWord(m, pc), k - pc) == Get(m, pc + (k - pc));
        assert ByteAt(LoadWord(m', pc), k - pc) == Get(m', pc + (k - pc));
      }
    }
  }
}
