/**
 Which bytes of a contract's code are instructions and which are push data: the
 bit vector that `codeBitmap` fills with shift tricks, against the plain scan that
 the Yellow Paper (section 9.4.3) describes.
 */
module JumpAnalysis {
  import opened Bytes

  const PUSH1: int := 0x60
  const PUSH32: int := 0x7f
  const JUMPDEST: int := 0x5b

  /** The length of an instruction with its immediate data. */
  function Width(op: Byte): (n: nat)
    ensures 1 <= n <= 33
  {
    if PUSH1 <= op <= PUSH32 then op - PUSH1 + 2 else 1
  }

  /** Scanning from the instruction at `pc`, an instruction begins at `p`. */
  predicate IsStart(code: seq<Byte>, pc: nat, p: nat)
    decreases |code| - pc
  {
    pc < |code| && pc <= p && (p == pc || IsStart(code, pc + Width(code[pc]), p))
  }

  /** A jump may go to `dest`. */
  predicate IsJumpdest(code: seq<Byte>, dest: nat)
  {
    dest < |code| && code[dest] == JUMPDEST && IsStart(code, 0, dest)
  }

  /* ---- Bit vectors ---- */

  function Mask(i: nat): (m: bv8)
    requires i < 8
  {
    0x80 >> i
  }

  /** Bit `p`, counted from the left. */
  predicate Bit(bits: seq<bv8>, p: nat)
    requires p / 8 < |bits|
  {
    bits[p / 8] & Mask(p % 8) != 0
  }

  lemma SetBit(b: bv8, i: nat, j: nat)
    requires i < 8 && j < 8
    ensures (b | Mask(i)) & Mask(j) != 0 <==> i == j || b & Mask(j) != 0
  {
  }

  /** The two masks of `set8`. */
  lemma SetTail(b: bv8, i: nat, j: nat)
    requires i < 8 && j < 8
    ensures (b | (0xFF >> i)) & Mask(j) != 0 <==> i <= j || b & Mask(j) != 0
    ensures (b | !(0xFF >> i)) & Mask(j) != 0 <==> j < i || b & Mask(j) != 0
  {
  }

  /** `bits'` is `bits` with the positions from `from` to `to` set. */
  ghost predicate Marked(bits: seq<bv8>, bits': seq<bv8>, from: nat, to: nat)
  {
    |bits'| == |bits| &&
    forall p: nat :: p / 8 < |bits| ==> (Bit(bits', p) <==> from <= p < to || Bit(bits, p))
  }

  method Set(bits: array<bv8>, pos: nat)
    requires pos / 8 < bits.Length
    modifies bits
    ensures Marked(old(bits[..]), bits[..], pos, pos + 1)
  {
    ghost var was := bits[..];
    bits[pos / 8] := bits[pos / 8] | (0x80 >> (pos % 8));
    forall p: nat | p / 8 < bits.Length
      ensures Bit(bits[..], p) <==> p == pos || Bit(was, p)
    {
      SetBit(was[pos / 8], pos % 8, p % 8);
    }
  }

  method Set8(bits: array<bv8>, pos: nat)
    requires pos / 8 + 1 < bits.Length
    modifies bits
    ensures Marked(old(bits[..]), bits[..], pos, pos + 8)
  {
    ghost var was := bits[..];
    bits[pos / 8] := bits[pos / 8] | (0xFF >> (pos % 8));
    bits[pos / 8 + 1] := bits[pos / 8 + 1] | !(0xFF >> (pos % 8));
    forall p: nat | p / 8 < bits.Length
      ensures Bit(bits[..], p) <==> pos <= p < pos + 8 || Bit(was, p)
    {
      SetTail(was[pos / 8], pos % 8, p % 8);
      SetTail(was[pos / 8 + 1], pos % 8, p % 8);
    }
  }

  method CodeSegment(bits: seq<bv8>, pos: nat) returns (instruction: bool)
    requires pos / 8 < |bits|
    ensures instruction == !Bit(bits, pos)
  {
    instruction := bits[pos / 8] & (0x80 >> (pos % 8)) == 0;
  }

  /** Exactly the bytes that the scan does not take for instructions are marked. */
  ghost predicate MarksData(bits: seq<bv8>, code: seq<Byte>)
  {
    |bits| == |code| / 8 + 5 && forall p: nat :: p < |code| ==> (Bit(bits, p) <==> !IsStart(code, 0, p))
  }

  /** Up to `pc`, the data bytes are marked, and nothing beyond it. */
  ghost predicate MarkedUpTo(bits: seq<bv8>, code: seq<Byte>, pc: nat)
  {
    |bits| == |code| / 8 + 5 &&
    forall p: nat :: p / 8 < |bits| ==> (Bit(bits, p) <==> p < pc && !IsStart(code, 0, p))
  }

  /** `codeBitmap`. */
  method CodeBitmap(code: seq<Byte>) returns (bits: array<bv8>)
    ensures fresh(bits) && MarksData(bits[..], code)
  {
    bits := new bv8[|code| / 8 + 1 + 4](_ => 0);
    var pc: nat := 0;
    while pc < |code|
      invariant AtStart(code, pc) && pc <= |code| + 32
      invariant MarkedUpTo(bits[..], code, pc)
      decreases |code| - pc
    {
      var op: int := code[pc];
      ghost var at, was := pc, bits[..];
      var numbits: nat := 0;
      pc := pc + 1;
      if PUSH1 <= op <= PUSH32 {
        numbits := op - PUSH1 + 1;
      }
      while numbits >= 8
        invariant pc + numbits == at + Width(code[at]) && at < pc
        invariant Marked(was, bits[..], at + 1, pc)
      {
        Set8(bits, pc);
        pc := pc + 8;
        numbits := numbits - 8;
      }
      while numbits > 0
        invariant pc + numbits == at + Width(code[at]) && at < pc
        invariant Marked(was, bits[..], at + 1, pc)
      {
        Set(bits, pc);
        pc := pc + 1;
        numbits := numbits - 1;
      }
      NextStart(code, at);
      MarkedNext(was, bits[..], code, at);
    }
  }

  /** The program counter is at an instruction, or past the end of the code. */
  predicate AtStart(code: seq<Byte>, pc: nat)
  {
    pc >= |code| || IsStart(code, 0, pc)
  }

  /** After an instruction comes the next one. */
  lemma {:induction false} StartAfter(code: seq<Byte>, from: nat, p: nat)
    requires p < |code| && IsStart(code, from, p) && p + Width(code[p]) < |code|
    ensures IsStart(code, from, p + Width(code[p]))
    decreases |code| - from
  {
    if p != from {
      StartAfter(code, from + Width(code[from]), p);
    }
  }

  /** Nothing inside an instruction is an instruction. */
  lemma {:induction false} NoStartInside(code: seq<Byte>, from: nat, p: nat, q: nat)
    requires p < |code| && IsStart(code, from, p) && p < q < p + Width(code[p])
    ensures !IsStart(code, from, q)
    decreases |code| - from
  {
    if p != from {
      NoStartInside(code, from + Width(code[from]), p, q);
    }
  }

  lemma NextStart(code: seq<Byte>, pc: nat)
    requires pc < |code| && AtStart(code, pc)
    ensures AtStart(code, pc + Width(code[pc]))
  {
    if pc + Width(code[pc]) < |code| {
      StartAfter(code, 0, pc);
    }
  }

  lemma MarkedNext(was: seq<bv8>, bits: seq<bv8>, code: seq<Byte>, pc: nat)
    requires pc < |code| && IsStart(code, 0, pc)
    requires MarkedUpTo(was, code, pc) && Marked(was, bits, pc + 1, pc + Width(code[pc]))
    ensures MarkedUpTo(bits, code, pc + Width(code[pc]))
  {
    forall p: nat | p / 8 < |bits|
      ensures Bit(bits, p) <==> p < pc + Width(code[pc]) && !IsStart(code, 0, p)
    {
      if pc < p < pc + Width(code[pc]) {
        NoStartInside(code, 0, pc, p);
      }
    }
  }
}
