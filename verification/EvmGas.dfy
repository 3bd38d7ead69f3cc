/**
 Gas arithmetic in 64 bits: memory sizes, and how much gas a call may pass on.
 */
module EvmGas {
  import opened Bytes
  import opened EvmContract
  import opened EvmMemory
  import opened EvmOps

  const CALL_NEW_ACCOUNT := 25000
  const CALL_VALUE_TRANSFER := 9000
  const CALL_STIPEND := 2300

  function SafeAdd(a: nat, b: nat): (sum: Option<nat>)
    ensures sum.Some? ==> sum.value == a + b && sum.value < UINT64
  {
    if a + b < UINT64 then Some(a + b) else None
  }

  function SafeMul(a: nat, b: nat): (product: Option<nat>)
    ensures product.Some? ==> product.value == a * b && product.value < UINT64
  {
    if a * b < UINT64 then Some(a * b) else None
  }

  function SafeAddTo(a: Option<nat>, b: nat): (sum: Option<nat>)
    ensures sum.Some? ==> a.Some? && sum.value == a.value + b && sum.value < UINT64
  {
    if a.None? then None else SafeAdd(a.value, b)
  }

  /** The `n`th stack item from the top. */
  function Back(stack: seq<Word>, n: nat): (w: Word)
    requires n < |stack|
  {
    stack[|stack| - 1 - n]
  }

  /* ---- Memory sizes ---- */

  function RegionOffset(r: Region, stack: seq<Word>): (w: nat)
    requires RegionReach(r) < |stack|
  {
    Back(stack, r.offset)
  }

  function RegionLength(r: Region, stack: seq<Word>): (w: nat)
    requires RegionReach(r) < |stack|
  {
    if r.Fixed? then r.size else Back(stack, r.length)
  }

  /** The memory in `r` lies below `size`. */
  predicate Covered(r: Region, stack: seq<Word>, size: nat)
    requires RegionReach(r) < |stack|
  {
    RegionLength(r, stack) > 0 ==> RegionOffset(r, stack) + RegionLength(r, stack) <= size
  }

  function RegionNeed(r: Region, stack: seq<Word>): (end: Option<nat>)
    requires RegionReach(r) < |stack|
    ensures end.Some? ==> end.value < UINT64 && Covered(r, stack, end.value)
  {
    RegionEnd(RegionOffset(r, stack), RegionLength(r, stack))
  }

  predicate Reaches(o: Operation, stack: seq<Word>)
  {
    |o.memory| <= 2 && (|o.memory| > 0 ==> RegionReach(o.memory[0]) < |stack|) &&
    (|o.memory| > 1 ==> RegionReach(o.memory[1]) < |stack|)
  }

  /** Every memory region of the operation lies below `size`. */
  predicate AllCovered(o: Operation, stack: seq<Word>, size: nat)
    requires Reaches(o, stack)
  {
    (|o.memory| > 0 ==> Covered(o.memory[0], stack, size)) && (|o.memory| > 1 ==> Covered(o.memory[1], stack, size))
  }

  /** The memory that an operation needs, in whole words; none if it exceeds 64 bits. */
  function MemoryNeed(o: Operation, stack: seq<Word>): (size: Option<nat>)
    requires Reaches(o, stack)
    ensures size.Some? ==> size.value < UINT64 && size.value % 32 == 0 && AllCovered(o, stack, size.value)
    ensures o.memory == [] ==> size == Some(0)
  {
    if o.memory == [] then Some(0)
    else
      var first := RegionNeed(o.memory[0], stack);
      var second := if |o.memory| > 1 then RegionNeed(o.memory[1], stack) else Some(0);
      if first.None? || second.None? then None
      else Rounded(Larger(first.value, second.value))
  }

  function Rounded(size: nat): (r: Option<nat>)
    requires size < UINT64
    ensures r.Some? ==> size <= r.value < UINT64 && r.value % 32 == 0
  {
    SafeMul(ToWordSize(size), 32)
  }

  /* ---- callGas ---- */

  /** `callGas`, where `availableGas - base` wraps around in 64 bits. */
  function CallAllowance(allButOne64th: bool, available: nat, base: nat, requested: nat): (gas: Option<nat>)
    requires available < UINT64 && base < UINT64
    ensures gas.Some? ==> gas.value < UINT64
  {
    if allButOne64th then
      var left := if base <= available then available - base else available - base + UINT64;
      var most := left - left / 64;
      if requested >= UINT64 || most < requested then Some(most) else Some(requested)
    else if requested >= UINT64 then None
    else Some(requested)
  }

  /** From EIP-150 on, a call that can be paid for gets what it asks for, but leaves a 64th with the caller. */
  lemma AllowanceKeepsOne64th(available: nat, base: nat, requested: nat)
    requires base <= available < UINT64
    ensures var gas := CallAllowance(true, available, base, requested);
            gas.Some? && base + gas.value <= available &&
            available - base - gas.value >= (available - base) / 64 &&
            (gas.value == requested || gas.value == available - base - (available - base) / 64) && gas.value <= requested
  {
  }

  /** A call whose base cost cannot be paid is out of gas, even though the subtraction wrapped around. */
  lemma AllowanceWrap(allButOne64th: bool, available: nat, base: nat, requested: nat)
    requires available < base < UINT64
    ensures var gas := CallAllowance(allButOne64th, available, base, requested);
            gas.None? || SafeAdd(base, gas.value).None? || SafeAdd(base, gas.value).value > available
  {
  }

  /** The number of bytes of a number. */
  function ByteLength(w: nat): (n: nat)
  {
    if w == 0 then 0 else 1 + ByteLength(w / 256)
  }
}
