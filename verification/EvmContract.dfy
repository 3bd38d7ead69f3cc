/**
 A contract in execution: its code, its gas, and the cached jump analysis, of which
 the part that is keyed by code hash is shared with the contracts it calls.
 */
module EvmContract {
  import opened Bytes
  import opened JumpAnalysis

  type Address = nat

  const UINT64 := 0x1_0000_0000_0000_0000

  /** A code hash; hashes of different codes are different. */
  datatype CodeHash = NoHash | HashOf(code: seq<Byte>)

  class JumpCache {
    var bitmaps: map<CodeHash, seq<bv8>>

    ghost predicate Valid()
      reads this
    {
      forall h :: h in bitmaps ==> h.HashOf? && MarksData(bitmaps[h], h.code)
    }

    constructor ()
      ensures Valid()
    {
      bitmaps := map[];
    }
  }

  class Contract {
    const self: Address
    const caller: Address
    const value: nat
    const code: seq<Byte>
    const codeHash: CodeHash
    const jumpdests: JumpCache
    var analysis: Option<seq<bv8>>
    var gas: nat

    ghost predicate Valid()
      reads this, jumpdests
    {
      gas < UINT64 && jumpdests.Valid() &&
      (codeHash.HashOf? ==> codeHash.code == code) &&
      (analysis.Some? ==> MarksData(analysis.value, code))
    }

    constructor (self: Address, caller: Address, value: nat, gas: nat, code: seq<Byte>, codeHash: CodeHash,
                 jumpdests: JumpCache)
      requires gas < UINT64 && jumpdests.Valid() && (codeHash.HashOf? ==> codeHash.code == code)
      ensures Valid() && this.gas == gas && this.code == code && this.jumpdests == jumpdests && this.self == self
      ensures this.caller == caller && this.value == value
    {
      this.self, this.caller, this.value, this.gas := self, caller, value, gas;
      this.code, this.codeHash, this.jumpdests, analysis := code, codeHash, jumpdests, None;
    }

    /** `UseGas`. */
    method UseGas(amount: nat) returns (ok: bool)
      modifies this`gas
      ensures ok <==> amount <= old(gas)
      ensures gas == if ok then old(gas) - amount else old(gas)
      ensures old(Valid()) ==> Valid()
    {
      ok := amount <= gas;
      if ok {
        gas := gas - amount;
      }
    }

    /** `GetOp`: past the end of the code stands the zero opcode. */
    function GetOp(pc: nat): (op: Byte)
    {
      if pc < |code| then code[pc] else 0
    }

    /** `validJumpdest`: the caches do not change the answer. */
    method ValidJumpdest(dest: nat) returns (ok: bool)
      requires Valid()
      modifies this`analysis, jumpdests
      ensures Valid() && gas == old(gas)
      ensures ok <==> dest < 0x4000_0000_0000_0000 && IsJumpdest(code, dest)
    {
      if dest >= 0x4000_0000_0000_0000 || dest >= |code| {
        return false;
      }
      if code[dest] != JUMPDEST {
        return false;
      }
      if codeHash.HashOf? {
        if codeHash !in jumpdests.bitmaps {
          var bits := CodeBitmap(code);
          jumpdests.bitmaps := jumpdests.bitmaps[codeHash := bits[..]];
        }
        ok := CodeSegment(jumpdests.bitmaps[codeHash], dest);
      } else {
        if analysis.None? {
          var bits := CodeBitmap(code);
          analysis := Some(bits[..]);
        }
        ok := CodeSegment(analysis.value, dest);
      }
    }
  }
}
