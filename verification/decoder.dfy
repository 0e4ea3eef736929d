/** The decoder as an object: it loads each word into one reused data buffer, parses it in the
    encoding, and builds the instruction from the encoding's operand getters. */
module Decoder {
  import opened Words
  import opened FlatMemory
  import opened BinFormat
  import opened Isa
  import opened Buffers

  class RiscV32IEncoding {
    var instWord: Word
    var opcode: Opcode

    /** The opcode always belongs to the word. */
    predicate Parsed(w: Word)
      reads this
    {
      instWord == w && opcode == DecodeOpcode(w)
    }

    constructor ()
      ensures Parsed(0)
    {
      instWord, opcode := 0, DecodeOpcode(0);
    }

    method ParseInstruction(w: Word)
      modifies this
      ensures Parsed(w)
    {
      instWord, opcode := w, DecodeOpcode(w);
    }
  }

  class RiscV32Decoder {
    const state: RiscVState
    const encoding: RiscV32IEncoding
    const instDb: nat
    const illegalSize: Word

    /** The decoder is the only holder of its buffer. */
    ghost predicate Valid()
      reads this, state
    {
      && state.Shape() && state.Valid() && state.Exclusive()
      && instDb in state.outside && instDb < |state.value|
    }

    constructor (s: RiscVState, size: Word)
      requires s.Valid() && s.Exclusive()
      modifies s`value, s`refs, s`free, s`outside
      ensures Valid() && state == s && illegalSize == size && fresh(encoding)
      ensures s.outside == old(s.outside) + multiset{instDb} && s.mem == old(s.mem)
      ensures s.Shape() && s.Registers() == old(s.Registers())
    {
      hide Counted;
      var db := s.Allocate();
      state, instDb, illegalSize := s, db, size;
      encoding := new RiscV32IEncoding();
      new;
      state.SameRegisters();
    }

    /** The instruction at an address of current memory, whatever the buffer and the encoding were
        last used for. */
    method DecodeInstruction(address: Word) returns (i: Inst)
      requires Valid()
      modifies state`value, encoding
      ensures Valid() && i == Decode(illegalSize, address, LoadWord(state.mem, address))
      ensures state.Registers() == old(state.Registers())
    {
      hide Counted, Load, DecodeOpcode;
      state.Set(instDb, LoadWord(state.mem, address));
      state.SameRegisters();
      var w := state.value[instDb];
      encoding.ParseInstruction(w);
      i := Inst(encoding.opcode, address, if encoding.opcode == Illegal then illegalSize else 4,
                GetSources(SourceOps(encoding.opcode), encoding.instWord),
                GetDests(DestOps(encoding.opcode), encoding.instWord));
    }
  }
}
