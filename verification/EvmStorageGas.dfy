/**
 What an SSTORE costs and refunds: the legacy rule, and the net metering of EIP-1283.
 */
module EvmStorageGas {
  /** What a write costs, what it first takes off the refund counter, and what it then adds to it. */
  datatype Meter = Meter(gas: nat, revoked: nat, granted: nat) {
    function Refund(): (r: int)
    {
      granted - revoked
    }
  }

  const SSTORE_SET := 20000
  const SSTORE_RESET := 5000
  const SSTORE_CLEAR := 5000
  const SSTORE_REFUND := 15000
  const NOOP := 200
  const INIT := 20000
  const CLEAN := 5000
  const DIRTY := 200
  const CLEAR_REFUND := 15000
  const RESET_REFUND := 4800
  const RESET_CLEAR_REFUND := 19800

  /** `gasSStore` before Constantinople and from Petersburg on. */
  function Legacy(current: nat, value: nat): (m: Meter)
    ensures m.gas >= 1
  {
    if current == 0 && value != 0 then Meter(SSTORE_SET, 0, 0)
    else if current != 0 && value == 0 then Meter(SSTORE_CLEAR, 0, SSTORE_REFUND)
    else Meter(SSTORE_RESET, 0, 0)
  }

  /** `gasSStore` under EIP-1283. */
  function Net(original: nat, current: nat, value: nat): (m: Meter)
    ensures m.gas >= 1
  {
    if current == value then Meter(NOOP, 0, 0)
    else if original == current then
      if original == 0 then Meter(INIT, 0, 0)
      else Meter(CLEAN, 0, if value == 0 then CLEAR_REFUND else 0)
    else
      var revoked := if original != 0 && current == 0 then CLEAR_REFUND else 0;
      var cleared := if original != 0 && current != 0 && value == 0 then CLEAR_REFUND else 0;
      var reset :=
        if original != value then 0
        else if original == 0 then RESET_CLEAR_REFUND
        else RESET_REFUND;
      Meter(DIRTY, revoked, cleared + reset)
  }

  lemma MeterBounds(original: nat, current: nat, value: nat)
    ensures 200 <= Net(original, current, value).gas <= 20000 && 200 <= Legacy(current, value).gas <= 20000
  {
  }

  /** A sequence of writes to one slot. */
  function Charged(original: nat, current: nat, writes: seq<nat>): (gas: int)
    decreases |writes|
  {
    if writes == [] then 0 else Net(original, current, writes[0]).gas + Charged(original, writes[0], writes[1..])
  }

  function Refunded(original: nat, current: nat, writes: seq<nat>): (refund: int)
    decreases |writes|
  {
    if writes == [] then 0 else Net(original, current, writes[0]).Refund() + Refunded(original, writes[0], writes[1..])
  }

  function Final(current: nat, writes: seq<nat>): (value: nat)
  {
    if writes == [] then current else writes[|writes| - 1]
  }

  /** What a slot's value owes beyond the flat charge, given its original value. */
  function Outstanding(original: nat, value: nat): (gas: int)
  {
    if value == original then 0
    else if original == 0 then INIT - NOOP
    else if value == 0 then CLEAN - NOOP - CLEAR_REFUND
    else CLEAN - NOOP
  }

  /** The refund that a cleared slot has earned and may lose again. */
  function Revocable(original: nat, value: nat): (refund: nat)
  {
    if original != 0 && value == 0 then CLEAR_REFUND else 0
  }

  lemma NetOfWrite(original: nat, current: nat, value: nat)
    ensures var m := Net(original, current, value);
            m.gas - m.Refund() == NOOP + Outstanding(original, value) - Outstanding(original, current)
  {
  }

  /**
   However a slot gets from one value to another, charges minus refunds are a flat
   amount per write plus an amount that only its first and last values determine.
   */
  lemma {:induction false} NetOfWrites(original: nat, current: nat, writes: seq<nat>)
    ensures Charged(original, current, writes) - Refunded(original, current, writes) ==
            NOOP * |writes| + Outstanding(original, Final(current, writes)) - Outstanding(original, current)
    decreases |writes|
  {
    hide Net, Outstanding, Meter.Refund;
    if writes != [] {
      NetOfWrite(original, current, writes[0]);
      NetOfWrites(original, writes[0], writes[1..]);
      assert Final(current, writes) == Final(writes[0], writes[1..]);
    }
  }

  /** Two ways of leaving an untouched slot at the same value differ only in the number of writes. */
  lemma OrderDoesNotMatter(original: nat, writes: seq<nat>, writes': seq<nat>)
    requires |writes| == |writes'| && Final(original, writes) == Final(original, writes')
    ensures Charged(original, original, writes) - Refunded(original, original, writes) ==
            Charged(original, original, writes') - Refunded(original, original, writes')
  {
    NetOfWrites(original, original, writes);
    NetOfWrites(original, original, writes');
  }

  /** A write never takes back more than the slot has earned. */
  lemma RevokesOnlyEarned(original: nat, current: nat, value: nat)
    ensures Net(original, current, value).Refund() >= Revocable(original, value) - Revocable(original, current)
    ensures Legacy(current, value).Refund() >= Revocable(original, value) - Revocable(original, current)
    ensures Net(original, current, value).revoked <= Revocable(original, current) && Legacy(current, value).revoked == 0
    ensures Net(original, current, value).revoked > 0 <==> original != 0 && current == 0 && value != 0
  {
  }

  /** Over any writes to one slot the refund stays at least what the slot's value has earned. */
  lemma {:induction false} RefundNeverNegative(original: nat, writes: seq<nat>, current: nat)
    ensures Revocable(original, current) + Refunded(original, current, writes) >=
            Revocable(original, Final(current, writes)) >= 0
    decreases |writes|
  {
    hide Net, Legacy, Revocable, Meter.Refund;
    if writes != [] {
      RevokesOnlyEarned(original, current, writes[0]);
      RefundNeverNegative(original, writes[1..], writes[0]);
      assert Final(current, writes) == Final(writes[0], writes[1..]);
    }
  }
}
