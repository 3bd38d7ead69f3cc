/**
 The memory of a contract in execution and what its growth costs.
 */
module EvmMemory {
  import opened Bytes
  import opened EvmContract

  const MEMORY_GAS := 3
  const QUAD_COEFF_DIV := 512
  /** The largest size for which the fee is computed without overflow. */
  const MAX_MEMORY := 0x1FFFFFFFE0

  /** `toWordSize`. */
  function ToWordSize(size: nat): (words: nat)
    requires size < UINT64
    ensures words <= 0x800_0000_0000_0000 && size <= 32 * words && 32 * words < size + 32
  {
    if size > UINT64 - 32 then 0x800_0000_0000_0000 else (size + 31) / 32
  }

  /** What a memory of `words` words costs in all. */
  function Fee(words: nat): (fee: nat)
  {
    MEMORY_GAS * words + words * words / QUAD_COEFF_DIV
  }

  lemma FeeMonotone(a: nat, b: nat)
    requires a <= b
    ensures Fee(a) <= Fee(b)
  {
    assert a * a <= b * b by {
      assert a * a <= a * b <= b * b;
    }
    DivMonotone(a * a, b * b);
  }

  lemma DivMonotone(x: nat, y: nat)
    requires x <= y
    ensures x / QUAD_COEFF_DIV <= y / QUAD_COEFF_DIV
  {
  }

  lemma SquareBound(words: nat, limit: nat)
    requires words <= limit
    ensures words * words <= limit * limit
  {
    assert words * words <= words * limit <= limit * limit;
  }

  /** No step of the fee computation exceeds 64 bits. */
  lemma FeeFits(words: nat)
    requires words <= 0xFFFF_FFFF
    ensures words * words < UINT64 && Fee(words) < UINT64
  {
    SquareBound(words, 0xFFFF_FFFF);
    var square := words * words;
    assert square < UINT64;
    DivMonotone(square, UINT64);
    assert UINT64 / QUAD_COEFF_DIV == 0x80_0000_0000_0000;
  }

  function Larger(a: nat, b: nat): (m: nat)
  {
    if a >= b then a else b
  }

  class Memory {
    var store: seq<Byte>
    var lastGasCost: nat
    ghost var paid: nat

    /** The memory is whole words, and the fees paid so far are what its size costs. */
    ghost predicate Valid()
      reads this
    {
      Charged(0)
    }

    /** The fees paid so far are what the memory will cost when it has been grown to `size`. */
    ghost predicate Charged(size: nat)
      reads this
    {
      |store| % 32 == 0 && |store| <= MAX_MEMORY && size <= MAX_MEMORY &&
      lastGasCost == paid == Fee(Larger(|store| / 32, ToWordSize(size)))
    }

    constructor ()
      ensures Valid() && store == [] && paid == 0
    {
      store, lastGasCost, paid := [], 0, 0;
    }

    /** `memoryGasCost`: the part of the fee that has not been paid yet. */
    method GasCost(newSize: nat) returns (fee: Option<nat>)
      requires Valid() && newSize < UINT64
      modifies this`lastGasCost, this`paid
      ensures fee.None? <==> newSize > MAX_MEMORY
      ensures fee.None? ==> Valid() && paid == old(paid)
      ensures fee.Some? ==> Charged(newSize) && paid == old(paid) + fee.value && fee.value < UINT64
    {
      if newSize == 0 {
        return Some(0);
      }
      if newSize > MAX_MEMORY {
        return None;
      }
      var words := ToWordSize(newSize);
      FeeFits(words);
      hide Fee;
      if words * 32 > |store| {
        var square := words * words;
        var total := words * MEMORY_GAS + square / QUAD_COEFF_DIV;
        assert total == Fee(words) by {
          FeeIs(words);
        }
        FeeMonotone(|store| / 32, words);
        fee := Some(total - lastGasCost);
        lastGasCost := total;
        paid := paid + fee.value;
      } else {
        return Some(0);
      }
    }

    /** `Resize`. */
    method Resize(size: nat)
      requires Charged(size) && size % 32 == 0
      modifies this`store
      ensures Valid() && |store| == Larger(|old(store)|, size)
      ensures old(store) <= store && forall i :: |old(store)| <= i < |store| ==> store[i] == 0
    {
      if |store| < size {
        store := store + seq(size - |store|, _ => 0);
      }
    }

    /** `Set`: writes as much of `value` as fits in `size` bytes. */
    method Set(offset: nat, size: nat, value: seq<Byte>)
      requires Valid() && (size > 0 ==> offset + size <= |store|)
      modifies this`store
      ensures Valid() && |store| == |old(store)|
      ensures forall i :: 0 <= i < |store| ==>
                store[i] == if offset <= i < offset + size && i - offset < |value| then value[i - offset] else old(store[i])
    {
      if size > 0 {
        var n := if |value| < size then |value| else size;
        store := store[..offset] + value[..n] + store[offset + n..];
      }
    }

    /** `Set32`: writes a word as 32 bytes, the most significant first. */
    method Set32(offset: nat, word: nat)
      requires Valid() && offset + 32 <= |store|
      modifies this`store
      ensures Valid() && |store| == |old(store)|
      ensures store[..offset] == old(store[..offset]) && store[offset + 32..] == old(store[offset + 32..])
      ensures store[offset..offset + 32] == WordBytes(word, 32)
    {
      store := store[..offset] + WordBytes(word, 32) + store[offset + 32..];
    }

    /** `Get`. */
    method Get(offset: nat, size: nat) returns (copy: seq<Byte>)
      requires size > 0 ==> offset + size <= |store|
      ensures |copy| == size && (size > 0 ==> copy == store[offset..offset + size])
    {
      if size == 0 {
        return [];
      }
      copy := store[offset..offset + size];
    }
  }

  /** The last `n` bytes of a number, the most significant first. */
  function WordBytes(word: nat, n: nat): (bytes: seq<Byte>)
    ensures |bytes| == n
  {
    if n == 0 then [] else WordBytes(word / 256, n - 1) + [word % 256]
  }

  lemma FeeIs(words: nat)
    ensures Fee(words) == words * MEMORY_GAS + words * words / QUAD_COEFF_DIV
  {
  }

  /** `calcMemSize64`: the end of a memory region, unless it exceeds 64 bits. */
  function RegionEnd(offset: nat, length: nat): (end: Option<nat>)
    ensures end.Some? ==> end.value < UINT64 && (length > 0 ==> end.value == offset + length)
  {
    if length >= UINT64 then None
    else if length == 0 then Some(0)
    else if offset >= UINT64 then None
    else
      var val := (offset + length) % UINT64;
      if val < offset then None else Some(val)
  }
}
