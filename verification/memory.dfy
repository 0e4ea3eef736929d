/** A flat byte-addressed memory with little-endian accesses of one, two and four bytes.
    An address never written holds the fill byte 0; addresses are mathematical integers. */
module FlatMemory {
  import opened Words

  type Addr = int
  type Memory = map<Addr, Byte>
  type Size = n: int | n == 1 || n == 2 || n == 4 witness 1

  function Get(m: Memory, a: Addr): Byte
  {
    if a in m then m[a] else 0
  }

  /** The two memories hold the same byte at every address. */
  ghost predicate Same(m: Memory, m': Memory)
  {
    forall a :: Get(m, a) == Get(m', a)
  }

  /** The number of values an access of n bytes can carry. */
  function Span(n: Size): int
  {
    if n == 1 then 0x100 else if n == 2 then 0x1_0000 else 0x1_0000_0000
  }

  /** Byte i of a word, least significant first. */
  function ByteAt(v: Word, i: int): (b: Byte)
  {
    if i == 0 then v % 0x100
    else if i == 1 then v / 0x100 % 0x100
    else if i == 2 then v / 0x100 / 0x100 % 0x100
    else v / 0x100 / 0x100 / 0x100 % 0x100
  }

  function Load(m: Memory, a: Addr, n: Size): (v: Word)
    ensures v < Span(n)
  {
    if n == 1 then Get(m, a)
    else if n == 2 then Get(m, a) + 0x100 * Get(m, a + 1)
    else Get(m, a) + 0x100 * Get(m, a + 1) + 0x1_0000 * Get(m, a + 2) + 0x100_0000 * Get(m, a + 3)
  }

  function LoadWord(m: Memory, a: Addr): Word
  {
    Load(m, a, 4)
  }

  function Store(m: Memory, a: Addr, n: Size, v: Word): (m': Memory)
    ensures forall k :: Get(m', k) == if a <= k < a + n then ByteAt(v, k - a) else Get(m, k)
  {
    if n == 1 then m[a := ByteAt(v, 0)]
    else if n == 2 then m[a := ByteAt(v, 0)][a + 1 := ByteAt(v, 1)]
    else m[a := ByteAt(v, 0)][a + 1 := ByteAt(v, 1)][a + 2 := ByteAt(v, 2)][a + 3 := ByteAt(v, 3)]
  }

  /** Two byte ranges share no address. */
  predicate Apart(a: Addr, n: int, b: Addr, k: int)
  {
    a + n <= b || b + k <= a
  }

  /** The value a load of n bytes sees in a word: its low bytes. */
  function LowBytes(v: Word, n: Size): (r: Word)
  {
    v % Span(n)
  }

  /** A word is put together again from its bytes, lowest first. */
  lemma BytesOf(v: Word)
    ensures v == ByteAt(v, 0) + 0x100 * ByteAt(v, 1) + 0x1_0000 * ByteAt(v, 2) + 0x100_0000 * ByteAt(v, 3)
    ensures v % 0x1_0000 == ByteAt(v, 0) + 0x100 * ByteAt(v, 1)
  {
    Digits(v);
    var low, high: int := v / 0x100, v / 0x100 / 0x100;
    assert v == 0x100 * low + v % 0x100;
    assert low == 0x100 * high + low % 0x100;
    DivUnique(v, 0x1_0000, high, 0x100 * (low % 0x100) + v % 0x100);
  }

  lemma Digits(v: Word)
    ensures v / 0x100 / 0x100 / 0x100 < 0x100
  {
  }

  lemma SmallBytes(b: Byte, c: Byte)
    ensures ByteAt(b, 0) == b
    ensures ByteAt(b + 0x100 * c, 0) == b && ByteAt(b + 0x100 * c, 1) == c
  {
    DivUnique(b + 0x100 * c, 0x100, c, b);
  }

  lemma LowBytesOf(v: Word, n: Size)
    ensures forall k :: 0 <= k < n ==> ByteAt(LowBytes(v, n), k) == ByteAt(v, k)
    ensures forall k :: 0 <= k < 4 ==> ByteAt(ByteAt(v, k), 0) == ByteAt(v, k)
  {
    hide ByteAt;
    forall k | 0 <= k < 4 ensures ByteAt(ByteAt(v, k), 0) == ByteAt(v, k) { SmallBytes(ByteAt(v, k), 0); }
    BytesOf(v);
    FirstByte(v);
    SmallBytes(ByteAt(v, 0), ByteAt(v, 1));
  }

  lemma FirstByte(v: Word)
    ensures v % 0x100 == ByteAt(v, 0) && v % 0x1_0000_0000 == v
  {
  }

  lemma BytesOfLoad(m: Memory, a: Addr)
    ensures forall j :: 0 <= j < 4 ==> ByteAt(LoadWord(m, a), j) == Get(m, a + j)
  {
    var b0: int, b1: int, b2: int, b3: int := Get(m, a), Get(m, a + 1), Get(m, a + 2), Get(m, a + 3);
    var w := LoadWord(m, a);
    assert w / 0x100 == b1 + 0x100 * b2 + 0x1_0000 * b3;
    assert w / 0x100 / 0x100 == b2 + 0x100 * b3;
    assert w / 0x100 / 0x100 / 0x100 == b3;
  }

  lemma LoadedByte(m: Memory, a: Addr, n: Size, i: int)
    requires 0 <= i < n
    ensures ByteAt(Load(m, a, n), i) == Get(m, a + i)
  {
    hide ByteAt;
    if n == 4 {
      BytesOfLoad(m, a);
      assert ByteAt(LoadWord(m, a), i) == Get(m, a + i);
    } else {
      SmallBytes(Get(m, a), Get(m, a + 1));
    }
  }

  lemma LowOfFour(b0: int, b1: int, b2: int, b3: int, k: Size)
    requires 0 <= b0 < 0x100 && 0 <= b1 < 0x100 && 0 <= b2 < 0x100 && 0 <= b3 < 0x100
    ensures var v: int := b0 + 0x100 * b1 + 0x1_0000 * b2 + 0x100_0000 * b3;
      v % Span(k) == if k == 1 then b0 else if k == 2 then b0 + 0x100 * b1 else v
  {
    var v: int := b0 + 0x100 * b1 + 0x1_0000 * b2 + 0x100_0000 * b3;
    DivUnique(v, 0x100, b1 + 0x100 * b2 + 0x1_0000 * b3, b0);
    DivUnique(v, 0x1_0000, b2 + 0x100 * b3, b0 + 0x100 * b1);
    DivUnique(v, 0x1_0000_0000, 0, v);
  }

  lemma Quotients(v: int, b0: int, b1: int, b2: int, b3: int)
    requires 0 <= b0 < 0x100 && 0 <= b1 < 0x100 && 0 <= b2 < 0x100 && 0 <= b3 < 0x100
    requires v == b0 + 0x100 * b1 + 0x1_0000 * b2 + 0x100_0000 * b3
    ensures v / 0x100 == b1 + 0x100 * b2 + 0x1_0000 * b3 && v / 0x1_0000 == b2 + 0x100 * b3 && v / 0x100_0000 == b3
  {
    DivUnique(v, 0x100, b1 + 0x100 * b2 + 0x1_0000 * b3, b0);
    DivUnique(v, 0x1_0000, b2 + 0x100 * b3, b0 + 0x100 * b1);
    DivUnique(v, 0x100_0000, b3, b0 + 0x100 * b1 + 0x1_0000 * b2);
  }

  lemma PowersOfBytes()
    ensures Pow2(0) == 1 && Pow2(8) == 0x100 && Pow2(16) == 0x1_0000 && Pow2(24) == 0x100_0000
  {
    Pow2Add(8, 8);
    Pow2Add(8, 16);
  }

  lemma Shifted(v: Word)
    ensures ShiftRight(v, 0) == v
    ensures ShiftRight(v, 8) == ByteAt(v, 1) + 0x100 * ByteAt(v, 2) + 0x1_0000 * ByteAt(v, 3)
    ensures ShiftRight(v, 16) == ByteAt(v, 2) + 0x100 * ByteAt(v, 3)
    ensures ShiftRight(v, 24) == ByteAt(v, 3)
  {
    hide ByteAt, Pow2;
    PowersOfBytes();
    BytesOf(v);
    Quotients(v, ByteAt(v, 0), ByteAt(v, 1), ByteAt(v, 2), ByteAt(v, 3));
  }

  /** Bytes i to i + k - 1 of a word, as the number they make. */
  lemma MiddleBytes(v: Word, i: nat, k: Size)
    requires i + k <= 4
    ensures ShiftRight(v, 8 * i) % Span(k)
            == ByteAt(v, i) + (if k >= 2 then 0x100 * ByteAt(v, i + 1) else 0)
               + if k == 4 then 0x1_0000 * ByteAt(v, 2) + 0x100_0000 * ByteAt(v, 3) else 0
  {
    hide ByteAt, ShiftRight, Span;
    var b0, b1, b2, b3 := ByteAt(v, 0), ByteAt(v, 1), ByteAt(v, 2), ByteAt(v, 3);
    BytesOf(v);
    Shifted(v);
    if i == 0 { LowOfFour(b0, b1, b2, b3, k); }
    else if i == 1 { LowOfFour(b1, b2, b3, 0, k); }
    else if i == 2 { LowOfFour(b2, b3, 0, 0, k); }
    else { LowOfFour(b3, 0, 0, 0, k); }
  }

  /** A load of bytes that one store put there, of the stored width or narrower, at any of its bytes. */
  lemma LoadWithin(m: Memory, a: Addr, n: Size, v: Word, b: Addr, k: Size)
    requires a <= b && b + k <= a + n
    ensures Load(Store(m, a, n, v), b, k) == ShiftRight(v, 8 * (b - a)) % Span(k)
  {
    hide ByteAt, Store, Span, ShiftRight;
    MiddleBytes(v, b - a, k);
  }

  lemma LoadAfterStore(m: Memory, a: Addr, n: Size, v: Word)
    ensures Load(Store(m, a, n, v), a, n) == LowBytes(v, n)
  {
    LoadWithin(m, a, n, v, a, n);
  }

  /** A load that misses the stored range sees the memory before the store. */
  lemma LoadApart(m: Memory, a: Addr, n: Size, v: Word, b: Addr, k: Size)
    requires Apart(a, n, b, k)
    ensures Load(Store(m, a, n, v), b, k) == Load(m, b, k)
  {
  }

  lemma StoresCommute(m: Memory, a: Addr, n: Size, v: Word, b: Addr, k: Size, u: Word)
    requires Apart(a, n, b, k)
    ensures Same(Store(Store(m, a, n, v), b, k, u), Store(Store(m, b, k, u), a, n, v))
  {
  }

  // ---------------------------------------------------------------- sequences of stores

  datatype Poke = Poke(a: Addr, n: Size, v: Word)

  function StoreAll(m: Memory, pokes: seq<Poke>): Memory
    decreases |pokes|
  {
    if pokes == [] then m else StoreAll(Store(m, pokes[0].a, pokes[0].n, pokes[0].v), pokes[1..])
  }

  predicate Covers(p: Poke, a: Addr)
  {
    p.a <= a < p.a + p.n
  }

  /** The byte that the last store covering an address leaves there. */
  function LastByte(m: Memory, pokes: seq<Poke>, a: Addr): Byte
  {
    if pokes == [] then Get(m, a)
    else
      var p := pokes[|pokes| - 1];
      if Covers(p, a) then ByteAt(p.v, a - p.a) else LastByte(m, pokes[..|pokes| - 1], a)
  }

  lemma {:induction false} StoreAllSplit(m: Memory, pokes: seq<Poke>, p: Poke)
    ensures StoreAll(m, pokes + [p]) == Store(StoreAll(m, pokes), p.a, p.n, p.v)
    decreases |pokes|
  {
    if pokes == [] {
      assert pokes + [p] == [p];
      assert [p][1..] == [];
    } else {
      StoreAllSplit(Store(m, pokes[0].a, pokes[0].n, pokes[0].v), pokes[1..], p);
      assert (pokes + [p])[1..] == pokes[1..] + [p];
    }
  }

  /** After any sequence of stores each byte is the one the last covering store put there. */
  lemma {:induction false} LastStoreWins(m: Memory, pokes: seq<Poke>, a: Addr)
    ensures Get(StoreAll(m, pokes), a) == LastByte(m, pokes, a)
  {
    if pokes != [] {
      var front, p := pokes[..|pokes| - 1], pokes[|pokes| - 1];
      assert pokes == front + [p];
      StoreAllSplit(m, front, p);
      LastStoreWins(m, front, a);
    }
  }

  /** A load after any sequence of stores puts together the bytes that the last stores left. */
  lemma LoadAfterStores(m: Memory, pokes: seq<Poke>, b: Addr, k: Size)
    ensures Load(StoreAll(m, pokes), b, k)
            == LastByte(m, pokes, b) + (if k >= 2 then 0x100 * LastByte(m, pokes, b + 1) else 0)
               + if k == 4 then 0x1_0000 * LastByte(m, pokes, b + 2) + 0x100_0000 * LastByte(m, pokes, b + 3) else 0
  {
    hide StoreAll, LastByte;
    LastStoreWins(m, pokes, b);
    LastStoreWins(m, pokes, b + 1);
    LastStoreWins(m, pokes, b + 2);
    LastStoreWins(m, pokes, b + 3);
  }

  /** What no store has touched reads as zero. */
  lemma {:induction false} UnwrittenIsZero(pokes: seq<Poke>, b: Addr, k: Size)
    requires forall i :: 0 <= i < |pokes| ==> Apart(pokes[i].a, pokes[i].n, b, k)
    ensures Load(StoreAll(map[], pokes), b, k) == 0
  {
    hide StoreAll;
    LoadAfterStores(map[], pokes, b, k);
    forall a | b <= a < b + k ensures LastByte(map[], pokes, a) == 0 { UncoveredByte(pokes, a); }
  }

  lemma {:induction false} UncoveredByte(pokes: seq<Poke>, a: Addr)
    requires forall i :: 0 <= i < |pokes| ==> !Covers(pokes[i], a)
    ensures LastByte(map[], pokes, a) == 0
  {
    if pokes != [] { UncoveredByte(pokes[..|pokes| - 1], a); }
  }

  /** A store apart from every store of a sequence can be moved from its front to its end. */
  lemma {:induction false} StoreMovesPast(m: Memory, pokes: seq<Poke>, p: Poke)
    requires forall i :: 0 <= i < |pokes| ==> Apart(p.a, p.n, pokes[i].a, pokes[i].n)
    ensures Same(StoreAll(m, [p] + pokes), StoreAll(m, pokes + [p]))
  {
    assert ([p] + pokes)[1..] == pokes;
    StoreAllSplit(m, pokes, p);
    StoreThenAll(m, pokes, p);
  }

  lemma {:induction false} StoreAllSame(m: Memory, m': Memory, pokes: seq<Poke>)
    requires Same(m, m')
    ensures Same(StoreAll(m, pokes), StoreAll(m', pokes))
    decreases |pokes|
  {
    if pokes != [] {
      var p := pokes[0];
      StoreAllSame(Store(m, p.a, p.n, p.v), Store(m', p.a, p.n, p.v), pokes[1..]);
    }
  }

  lemma {:induction false} StoreThenAll(m: Memory, pokes: seq<Poke>, p: Poke)
    requires forall i :: 0 <= i < |pokes| ==> Apart(p.a, p.n, pokes[i].a, pokes[i].n)
    ensures Same(StoreAll(Store(m, p.a, p.n, p.v), pokes), Store(StoreAll(m, pokes), p.a, p.n, p.v))
    decreases |pokes|
  {
    if pokes != [] {
      var q := pokes[0];
      StoresCommute(m, p.a, p.n, p.v, q.a, q.n, q.v);
      var pq, qp := Store(Store(m, p.a, p.n, p.v), q.a, q.n, q.v), Store(Store(m, q.a, q.n, q.v), p.a, p.n, p.v);
      StoreAllSame(pq, qp, pokes[1..]);
      StoreThenAll(Store(m, q.a, q.n, q.v), pokes[1..], p);
    }
  }

  /** The single-byte stores that make up a store, in the order given by a list of byte numbers. */
  function ByteStores(p: Poke, order: seq<int>): (pokes: seq<Poke>)
    requires forall i :: 0 <= i < |order| ==> 0 <= order[i] < p.n
    ensures |pokes| == |order|
    ensures forall i :: 0 <= i < |order| ==> pokes[i] == Poke(p.a + order[i], 1, ByteAt(p.v, order[i]))
  {
    seq(|order|, i requires 0 <= i < |order| => Poke(p.a + order[i], 1, ByteAt(p.v, order[i])))
  }

  /** A wide store equals its byte stores, in any order and with any repetition, as long as
      every byte is stored. */
  lemma WideStoreIsByteStores(m: Memory, p: Poke, order: seq<int>)
    requires forall i :: 0 <= i < |order| ==> 0 <= order[i] < p.n
    requires forall b :: 0 <= b < p.n ==> b in order
    ensures Same(StoreAll(m, ByteStores(p, order)), Store(m, p.a, p.n, p.v))
  {
    var pokes := ByteStores(p, order);
    forall a: Addr
      ensures Get(StoreAll(m, pokes), a) == Get(Store(m, p.a, p.n, p.v), a)
    {
      LastStoreWins(m, pokes, a);
      LastOfBytes(m, p, order, |order|, a);
      assert pokes[..|order|] == pokes && order[..|order|] == order;
    }
  }

  lemma {:induction false} LastOfBytes(m: Memory, p: Poke, order: seq<int>, len: nat, a: Addr)
    requires len <= |order|
    requires forall i :: 0 <= i < |order| ==> 0 <= order[i] < p.n
    ensures LastByte(m, ByteStores(p, order)[..len], a)
            == if a - p.a in order[..len] then ByteAt(p.v, a - p.a) else Get(m, a)
  {
    var pokes := ByteStores(p, order);
    if len > 0 {
      LastOfBytes(m, p, order, len - 1, a);
      assert pokes[..len][..len - 1] == pokes[..len - 1];
      assert order[..len] == order[..len - 1] + [order[len - 1]];
      assert ByteAt(ByteAt(p.v, order[len - 1]), 0) == ByteAt(p.v, order[len - 1]);
    }
  }
}
