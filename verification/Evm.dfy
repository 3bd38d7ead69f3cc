/**
 The interpreter: frames that call each other, with their gas, and the state they
 share.  The words that computing instructions leave on the stack are arbitrary, so
 what is shown holds whatever the instructions compute.
 */
module Evm {
  import opened Bytes
  import opened JumpAnalysis
  import opened EvmContract
  import opened EvmMemory
  import opened EvmStorageGas
  import opened EvmWorld
  import opened EvmOps
  import opened EvmGas

  datatype Error =
    | NoError
    | Reverted
    | OutOfGas
    | InvalidOpcode
    | StackUnderflow
    | StackLimit
    | WriteProtection
    | GasOverflow
    | InvalidJump
    | ReturnDataOutOfBounds
    | DepthExceeded
    | InsufficientBalance
    | AddressCollision
    | CodeStoreOutOfGas
    | MaxCodeSizeExceeded
    | PrecompileFailed

  const CALL_CREATE_DEPTH := 1024
  const CREATE_DATA_GAS := 200
  const MAX_CODE_SIZE := 24576
  const SUICIDE_REFUND := 24000

  function ToAddress(w: nat): (a: Address)
  {
    w % 0x1_0000000000000000_0000000000000000_00000000
  }

  /** How a step of a contract ends. */
  datatype Outcome = Next(pc: nat) | Halted(ret: seq<Byte>) | Failed(err: Error, ret: seq<Byte>)

  /** The gas that a call instruction hands to the callee, with the stipend. */
  function Passed(o: Operation, stack: seq<Word>, allowance: nat): (gas: nat)
    requires o.action.Call? ==> |stack| >= 3
  {
    if !o.action.Call? then 0
    else allowance + if TransfersValue(o.action.kind, stack) then CALL_STIPEND else 0
  }

  predicate TransfersValue(kind: CallKind, stack: seq<Word>)
    requires |stack| >= 3
  {
    (kind.CallKind? || kind.CallCodeKind?) && Back(stack, 2) != 0
  }

  /** `n` words about which nothing is known. */
  method Arbitrary(n: nat) returns (words: seq<Word>)
    ensures |words| == n
  {
    words := [];
    while |words| < n
      invariant |words| <= n
    {
      var w: Word := *;
      words := words + [w];
    }
  }

  method ArbitraryNumber() returns (n: nat)
  {
    n := *;
  }

  method ArbitraryBytes() returns (bytes: seq<Byte>)
  {
    bytes := *;
  }

  /** What a call to an account without code amounts to. */
  function Paid(w: World, from: Address, to: Address, value: nat, eip158: bool): (w': World)
    requires CanTransfer(w, from, value)
  {
    if w.Exist(to) then Transfer(w, from, to, value)
    else if eip158 && value == 0 then w
    else Transfer(w.CreateAccount(to), from, to, value)
  }

  /** Entering a frame moves the value and keeps the refund covered; with no value it touches nothing. */
  lemma EnterFrame(w: World, w': World, from: Address, to: Address, value: nat)
    requires CanTransfer(w, from, value) && RefundCovers(w') && RefundCovers(w)
    requires w' == w || (!w.Exist(to) && w' == w.CreateAccount(to))
    ensures CanTransfer(w', from, value) && RefundCovers(Transfer(w', from, to, value))
    ensures value == 0 ==> Untouched(w, Transfer(w', from, to, value))
    ensures Supply(Transfer(w', from, to, value)) == Supply(w)
  {
    hide RefundCovers, Supply;
    SupplyWith(w, to, NO_ACCOUNT.(balance := w.At(to).balance));
    SupplyTransfer(w', from, to, value);
    var a := w'.SubBalance(from, value);
    CoversWith(w', from, w'.At(from).(balance := w'.At(from).balance - value));
    CoversWith(a, to, a.At(to).(balance := a.At(to).balance + value));
    TouchOnly(w, to, from);
    TouchOnly(w', from, to);
  }

  /** The refund counter covers what may be taken back, once a pending write has been made. */
  ghost predicate RefundReady(o: Operation, w: World, self: Address, stack: seq<Word>)
  {
    if o.action.StoreStorage? then |stack| >= 2 && RefundCovers(w.SetState(self, Back(stack, 0), Back(stack, 1)))
    else RefundCovers(w)
  }

  /** In a locked frame nothing is written, and no value is sent. */
  predicate Permitted(o: Operation, stack: seq<Word>, locked: bool)
  {
    locked ==> !o.writes && (o.action == Action.Call(CallKind) ==> |stack| >= 3 && Back(stack, 2) == 0)
  }

  lemma StoreSupply(w: World, a: Address, slot: nat, value: nat)
    ensures Supply(w.SetState(a, slot, value)) == Supply(w)
  {
    SupplyWith(w, a, w.At(a).(storage := w.At(a).storage[slot := value]));
  }

  lemma SameSupply(w: World, w': World)
    requires w'.accounts == w.accounts
    ensures Supply(w') == Supply(w)
  {
  }

  lemma DestroyCovers(w: World, self: Address, heir: Address)
    requires RefundCovers(w)
    ensures RefundCovers(w.AddBalance(heir, w.At(self).balance).Suicide(self))
  {
    hide RefundCovers;
    var a := w.AddBalance(heir, w.At(self).balance);
    CoversWith(w, heir, w.At(heir).(balance := w.At(heir).balance + w.At(self).balance));
    CoversWith(a, self, a.At(self).(balance := 0, suicided := true));
  }

  lemma OpReaches(o: Operation, stack: seq<Word>)
    requires Chargeable(o) && o.pops <= |stack|
    ensures WellFormed(o) && (o.Halts() || o.action.Revert? || LeastCost(o) >= 1)
    ensures Reaches(o, stack) && (o.action.Call? ==> |stack| >= 3) && (o.action.StoreStorage? ==> |stack| >= 2)
  {
  }

  lemma NeedCovers(o: Operation, stack: seq<Word>)
    requires Reaches(o, stack)
    ensures var size := MemoryNeed(o, stack);
            (size.Some? ==> size.value < UINT64 && size.value % 32 == 0 && AllCovered(o, stack, size.value)) &&
            (o.memory == [] ==> size == Some(0))
  {
  }

  lemma CoveredMore(o: Operation, stack: seq<Word>, size: nat, size': nat)
    requires Reaches(o, stack) && AllCovered(o, stack, size) && size <= size'
    ensures AllCovered(o, stack, size')
  {
  }

  /** After a straight-line instruction, or a jump that was checked, the program counter is at an instruction again. */
  lemma Advance(code: seq<Byte>, rules: Rules, pc: nat, pc': nat, o: Operation)
    requires AtStart(code, pc) && Lookup(if pc < |code| then code[pc] else 0, rules) == Some(o)
    requires !o.Halts() && Moves(code, pc, pc', o)
    ensures AtStart(code, if o.action.Jump? || o.action.JumpIf? then pc' else pc' + 1)
  {
    assert Lookup(0, rules).value.Halts();
    PushWidth(code[pc], rules);
    NextStart(code, pc);
    hide Lookup, IsStart;
  }

  /** What an operation does to the program counter, apart from the final increment. */
  ghost predicate Moves(code: seq<Byte>, pc: nat, pc': nat, o: Operation)
  {
    match o.action
    case Jump => IsJumpdest(code, pc')
    case JumpIf => IsJumpdest(code, pc') || pc' == pc + 1
    case PushData(size) => pc' == pc + size
    case _ => pc' == pc
  }

  /** Nothing but the `length` bytes at `at` changed. */
  ghost predicate SameOutside(before: seq<Byte>, after: seq<Byte>, at: nat, length: nat)
  {
    |after| == |before| && forall i :: 0 <= i < |before| && !(at <= i < at + length) ==> after[i] == before[i]
  }

  class Machine {
    const rules: Rules
    const precompiled: set<Address>
    const noRecursion: bool
    var world: World
    var depth: nat
    var readOnly: bool
    var callGasTemp: nat
    var returnData: seq<Byte>

    /** `NewEVM`, over a world in which the transaction has not written yet. */
    constructor (rules: Rules, precompiled: set<Address>, noRecursion: bool, world: World)
      requires world.refund >= 0 && forall a :: a in world.accounts ==> world.accounts[a].storage == world.accounts[a].committed
      ensures this.rules == rules && this.precompiled == precompiled && this.noRecursion == noRecursion
      ensures this.world == world && RefundCovers(world) && depth == 0 && !readOnly && returnData == []
    {
      CoversAtStart(world);
      this.rules, this.precompiled, this.noRecursion := rules, precompiled, noRecursion;
      this.world, depth, readOnly, callGasTemp, returnData := world, 0, false, 0, [];
    }

    /** No state may be modified. */
    predicate Locked()
      reads this`readOnly
    {
      readOnly && rules.byzantium
    }

    /* ---- Dynamic gas ---- */

    /** The cost of growing the memory, plus `amount`. */
    method MemoryGas(mem: Memory, size: nat, amount: nat) returns (cost: Option<nat>)
      requires mem.Valid() && size < UINT64
      modifies mem`lastGasCost, mem`paid
      ensures mem.store == old(mem.store)
      ensures cost.Some? ==> mem.Charged(size) && cost.value < UINT64 && mem.paid >= old(mem.paid)
      ensures cost.Some? ==> cost.value == amount + mem.paid - old(mem.paid)
    {
      var fee := mem.GasCost(size);
      cost := SafeAddTo(fee, amount);
    }

    method WordGas(mem: Memory, size: nat, amount: nat, perWord: nat, length: nat) returns (cost: Option<nat>)
      requires mem.Valid() && size < UINT64
      modifies mem`lastGasCost, mem`paid
      ensures mem.store == old(mem.store)
      ensures cost.Some? ==> mem.Charged(size) && cost.value < UINT64 && mem.paid >= old(mem.paid) && length < UINT64
      ensures cost.Some? ==> cost.value == amount + ToWordSize(length) * perWord + mem.paid - old(mem.paid)
    {
      cost := MemoryGas(mem, size, amount);
      if cost.None? || length >= UINT64 {
        return None;
      }
      var words := SafeMul(ToWordSize(length), perWord);
      if words.None? {
        return None;
      }
      cost := SafeAdd(cost.value, words.value);
    }

    method LogCost(mem: Memory, size: nat, topics: nat, length: nat) returns (cost: Option<nat>)
      requires mem.Valid() && size < UINT64
      modifies mem`lastGasCost, mem`paid
      ensures mem.store == old(mem.store)
      ensures cost.Some? ==> mem.Charged(size) && cost.value < UINT64 && mem.paid >= old(mem.paid)
      ensures cost.Some? ==> cost.value == 375 + 375 * topics + 8 * length + mem.paid - old(mem.paid)
    {
      if length >= UINT64 {
        return None;
      }
      cost := MemoryGas(mem, size, 375);
      cost := SafeAddTo(cost, topics * 375);
      var data := SafeMul(length, 8);
      if data.None? {
        return None;
      }
      cost := SafeAddTo(cost, data.value);
    }

    /** Which of the two ways of pricing a write applies. */
    function Metered(a: Address, slot: nat, value: nat): (m: Meter)
      reads this`world
    {
      var current, original := world.GetState(a, slot), world.GetCommittedState(a, slot);
      if rules.petersburg || !rules.constantinople then Legacy(current, value) else Net(original, current, value)
    }

    /** `gasSStore`: what the write will cost, with the refund counter already changed. */
    method StoreCost(contract: Contract, slot: nat, value: nat) returns (cost: nat)
      requires RefundCovers(world)
      modifies this`world
      ensures 200 <= cost <= 20000 && world.accounts == old(world).accounts
      ensures var m := old(Metered(contract.self, slot, value));
              cost == m.gas && old(world).refund >= m.revoked && world == old(world).AddRefund(m.Refund())
      ensures RefundCovers(world.SetState(contract.self, slot, value)) && world.refund >= 0
    {
      hide RefundCovers, Net, Legacy, Revocable, Cleared;
      var current, original := world.GetState(contract.self, slot), world.GetCommittedState(contract.self, slot);
      var m := Metered(contract.self, slot, value);
      RevokesOnlyEarned(original, current, value);
      MeterBounds(original, current, value);
      CoversStore(world, contract.self, slot, value, m.Refund());
      CoversRevoked(world, contract.self, slot);
      world := world.SubRefund(m.revoked);
      world := world.AddRefund(m.granted);
      cost := m.gas;
    }

    /** What a call costs apart from memory and from the gas it passes on. */
    function CallBase(kind: CallKind, stack: seq<Word>): (gas: nat)
      requires |stack| >= 3
      reads this`world
      ensures 40 <= gas <= 40000 && (TransfersValue(kind, stack) ==> gas >= 40 + CALL_VALUE_TRANSFER)
    {
      var a := ToAddress(Back(stack, 1));
      var transfers := TransfersValue(kind, stack);
      rules.Table().calls + (if transfers then CALL_VALUE_TRANSFER else 0) +
      if kind.CallKind? && (if rules.eip158 then transfers && world.Empty(a) else !world.Exist(a))
      then CALL_NEW_ACCOUNT else 0
    }

    /** `gasCall` and its relatives: also decides how much gas the callee will get. */
    method CallCost(kind: CallKind, contract: Contract, stack: seq<Word>, mem: Memory, size: nat)
      returns (cost: Option<nat>)
      requires mem.Valid() && size < UINT64 && |stack| >= 3 && contract.gas < UINT64
      modifies this`callGasTemp, mem`lastGasCost, mem`paid
      ensures mem.store == old(mem.store)
      ensures cost.Some? ==>
                mem.Charged(size) && cost.value < UINT64 &&
                callGasTemp + 40 + (if TransfersValue(kind, stack) then CALL_VALUE_TRANSFER else 0) <= cost.value
      ensures cost.Some? ==>
                mem.paid >= old(mem.paid) &&
                var base := CallBase(kind, stack) + mem.paid - old(mem.paid);
                cost.value == base + callGasTemp && base < UINT64 &&
                CallAllowance(rules.Table().createBySuicide > 0, contract.gas, base, Back(stack, 0)) == Some(callGasTemp)
    {
      var base := MemoryGas(mem, size, CallBase(kind, stack));
      if base.None? {
        return None;
      }
      var allowance := CallAllowance(rules.Table().createBySuicide > 0, contract.gas, base.value, Back(stack, 0));
      if allowance.None? {
        return None;
      }
      callGasTemp := allowance.value;
      cost := SafeAdd(base.value, callGasTemp);
    }

    /** `gasSuicide`. */
    method SuicideCost(contract: Contract, stack: seq<Word>) returns (cost: nat)
      requires |stack| >= 1 && RefundCovers(world)
      modifies this`world
      ensures cost < UINT64 && RefundCovers(world) && world.accounts == old(world).accounts
      ensures world == if old(world).At(contract.self).suicided then old(world) else old(world).AddRefund(SUICIDE_REFUND)
    {
      cost := 0;
      if rules.eip150 {
        var a := ToAddress(Back(stack, 0));
        cost := rules.Table().suicide;
        if (if rules.eip158 then world.Empty(a) && world.At(contract.self).balance != 0 else !world.Exist(a)) {
          cost := cost + rules.Table().createBySuicide;
        }
      }
      if !world.At(contract.self).suicided {
        CoversShrinks(world, world.AddRefund(SUICIDE_REFUND));
        world := world.AddRefund(SUICIDE_REFUND);
      }
    }

    /** What is left to be paid for an operation, as far as state and stack decide it. */
    method DynamicGas(o: Operation, contract: Contract, stack: seq<Word>, mem: Memory, size: nat)
      returns (cost: Option<nat>)
      requires Chargeable(o) && o.pops <= |stack| && mem.Valid() && size < UINT64 && (o.memory == [] ==> size == 0)
      requires contract.gas < UINT64 && RefundCovers(world)
      modifies this`world, this`callGasTemp, mem`lastGasCost, mem`paid
      ensures mem.store == old(mem.store)
      ensures cost.Some? ==> mem.Charged(size) && cost.value < UINT64 && o.constantGas + cost.value >= LeastCost(o)
      ensures o.action.Call? && cost.Some? ==>
                callGasTemp + 40 + (if TransfersValue(o.action.kind, stack) then CALL_VALUE_TRANSFER else 0) <= cost.value
      ensures if o.action.StoreStorage? then RefundCovers(world.SetState(contract.self, Back(stack, 0), Back(stack, 1)))
              else RefundCovers(world)
      ensures world.accounts == old(world).accounts && (!o.writes ==> world == old(world))
    {
      hide RefundCovers, Fee, Legacy, Net, Meter.Refund, CallAllowance, ToWordSize, Machine.Metered, Machine.CallBase;
      match o.dynamic {
        case NoDynamic => cost := Some(0);
        case Flat(amount) => cost := SafeAdd(0, amount);
        case ExpGas => cost := SafeAdd(ByteLength(Back(stack, 1)) * rules.Table().expByte, 10);
        case MemoryPlus(amount) => cost := MemoryGas(mem, size, amount);
        case PerWord(amount, perWord, sizeAt) => cost := WordGas(mem, size, amount, perWord, Back(stack, sizeAt));
        case LogGas(topics) => cost := LogCost(mem, size, topics, Back(stack, 1));
        case StoreGas =>
          var gas := StoreCost(contract, Back(stack, 0), Back(stack, 1));
          cost := Some(gas);
        case CallGas(kind) => cost := CallCost(kind, contract, stack, mem, size);
        case SuicideGas =>
          var gas := SuicideCost(contract, stack);
          cost := Some(gas);
      }
    }

    /* ---- Frames ---- */

    /** `Call`. */
    method Call(caller: Address, cache: JumpCache, to: Address, input: seq<Byte>, gas: nat, value: nat)
      returns (ret: seq<Byte>, left: nat, err: Error)
      requires gas < UINT64 && depth <= CALL_CREATE_DEPTH + 1 && cache.Valid() && RefundCovers(world)
      modifies this, cache
      ensures cache.Valid() && RefundCovers(world)
      ensures depth == old(depth) && readOnly == old(readOnly)
      ensures left <= gas
      ensures err != NoError ==> world == old(world)
      ensures err != NoError && err != Reverted ==> left == 0 || (PreCheck(err) && left == gas)
      ensures Locked() && value == 0 ==> Untouched(old(world), world)
      ensures Supply(world) <= Supply(old(world))
      ensures to !in precompiled && old(world).At(to).code == [] && !(noRecursion && old(depth) > 0) ==>
                left == gas &&
                if old(depth) > CALL_CREATE_DEPTH then err == DepthExceeded
                else if !CanTransfer(old(world), caller, value) then err == InsufficientBalance
                else err == NoError && world == Paid(old(world), caller, to, value, rules.eip158)
      decreases gas, 7
    {
      hide RefundCovers, Untouched, Supply;
      TouchOnly(world, to, caller);
      if noRecursion && depth > 0 {
        return [], gas, NoError;
      }
      if depth > CALL_CREATE_DEPTH {
        return [], gas, DepthExceeded;
      }
      if !CanTransfer(world, caller, value) {
        return [], gas, InsufficientBalance;
      }
      var snapshot := world;
      if !world.Exist(to) {
        if to !in precompiled && rules.eip158 && value == 0 {
          return [], gas, NoError;
        }
        CoversWith(world, to, NO_ACCOUNT.(balance := world.At(to).balance));
        world := world.CreateAccount(to);
      }
      EnterFrame(snapshot, world, caller, to, value);
      world := Transfer(world, caller, to, value);
      ghost var entered := world;
      var code := world.At(to).code;
      var contract := new Contract(to, caller, value, gas, code, HashOf(code), cache);
      ret, err := RunContract(contract, to, input, false);
      if err != NoError {
        world := snapshot;
        if err != Reverted {
          var _ := contract.UseGas(contract.gas);
        }
      } else if readOnly && rules.byzantium && value == 0 {
        UntouchedTrans(snapshot, entered, world);
      }
      left := contract.gas;
    }

    /** `CallCode` and `DelegateCall`: run another account's code as the caller. */
    method CallHere(self: Address, caller: Address, cache: JumpCache, codeOf: Address, input: seq<Byte>,
                    gas: nat, value: nat, checkBalance: bool)
      returns (ret: seq<Byte>, left: nat, err: Error)
      requires gas < UINT64 && depth <= CALL_CREATE_DEPTH + 1 && cache.Valid() && RefundCovers(world)
      modifies this, cache
      ensures cache.Valid() && RefundCovers(world)
      ensures depth == old(depth) && readOnly == old(readOnly)
      ensures left <= gas
      ensures err != NoError ==> world == old(world)
      ensures err != NoError && err != Reverted ==> left == 0 || (PreCheck(err) && left == gas)
      ensures Locked() ==> Untouched(old(world), world)
      ensures Supply(world) <= Supply(old(world))
      decreases gas, 7
    {
      hide RefundCovers, Untouched, Supply;
      TouchOnly(world, self, self);
      if noRecursion && depth > 0 {
        return [], gas, NoError;
      }
      if depth > CALL_CREATE_DEPTH {
        return [], gas, DepthExceeded;
      }
      if checkBalance && !CanTransfer(world, self, value) {
        return [], gas, InsufficientBalance;
      }
      var snapshot := world;
      var code := world.At(codeOf).code;
      var contract := new Contract(self, caller, value, gas, code, HashOf(code), cache);
      ret, err := RunContract(contract, codeOf, input, false);
      if err != NoError {
        world := snapshot;
        if err != Reverted {
          var _ := contract.UseGas(contract.gas);
        }
      }
      left := contract.gas;
    }

    /** `StaticCall`: nothing but empty accounts may appear. */
    method StaticCall(caller: Address, cache: JumpCache, to: Address, input: seq<Byte>, gas: nat)
      returns (ret: seq<Byte>, left: nat, err: Error)
      requires gas < UINT64 && depth <= CALL_CREATE_DEPTH + 1 && cache.Valid() && RefundCovers(world)
      modifies this, cache
      ensures cache.Valid() && RefundCovers(world)
      ensures depth == old(depth) && readOnly == old(readOnly)
      ensures left <= gas
      ensures err != NoError ==> world == old(world)
      ensures err != NoError && err != Reverted ==> left == 0 || (PreCheck(err) && left == gas)
      ensures rules.byzantium ==> Untouched(old(world), world)
      ensures Supply(world) <= Supply(old(world))
      decreases gas, 7
    {
      hide RefundCovers, Untouched, Supply;
      TouchOnly(world, to, caller);
      if noRecursion && depth > 0 {
        return [], gas, NoError;
      }
      if depth > CALL_CREATE_DEPTH {
        return [], gas, DepthExceeded;
      }
      var snapshot := world;
      var code := world.At(to).code;
      var contract := new Contract(to, caller, 0, gas, code, HashOf(code), cache);
      CoversWith(world, to, world.At(to));
      SupplyWith(world, to, world.At(to));
      world := world.AddBalance(to, 0);
      ghost var entered := world;
      ret, err := RunContract(contract, to, input, true);
      if err != NoError {
        world := snapshot;
        if err != Reverted {
          var _ := contract.UseGas(contract.gas);
        }
      } else if rules.byzantium {
        UntouchedTrans(snapshot, entered, world);
      }
      left := contract.gas;
    }

    /** `run`: a precompiled contract, or the interpreter. */
    method RunContract(contract: Contract, codeOf: Address, input: seq<Byte>, frozen: bool)
      returns (ret: seq<Byte>, err: Error)
      requires contract.Valid() && depth <= CALL_CREATE_DEPTH && RefundCovers(world)
      modifies this, contract, contract.jumpdests
      ensures contract.Valid() && contract.gas <= old(contract.gas)
      ensures depth == old(depth) && readOnly == old(readOnly)
      ensures err == NoError ==> RefundCovers(world)
      ensures FrameError(err)
      ensures (readOnly || frozen) && rules.byzantium ==> Untouched(old(world), world)
      ensures Supply(world) <= Supply(old(world))
      ensures contract.code == [] && codeOf !in precompiled ==>
                err == NoError && world == old(world) && contract.gas == old(contract.gas)
      decreases contract.gas, 6
    {
      hide RefundCovers, Untouched, Supply;
      TouchOnly(world, codeOf, codeOf);
      if codeOf in precompiled {
        var price := ArbitraryNumber();
        var ok := contract.UseGas(price);
        if !ok {
          return [], OutOfGas;
        }
        ret := ArbitraryBytes();
        var failed: bool := *;
        return ret, if failed then PrecompileFailed else NoError;
      }
      ret, err := Run(contract, input, frozen);
    }

    /** `Run`: one frame deeper, read-only if it was or is asked for, and both restored in the end. */
    method Run(contract: Contract, input: seq<Byte>, frozen: bool) returns (ret: seq<Byte>, err: Error)
      requires contract.Valid() && depth <= CALL_CREATE_DEPTH && RefundCovers(world)
      modifies this, contract, contract.jumpdests
      ensures contract.Valid() && contract.gas <= old(contract.gas)
      ensures depth == old(depth) && readOnly == old(readOnly)
      ensures err == NoError ==> RefundCovers(world)
      ensures FrameError(err)
      ensures (readOnly || frozen) && rules.byzantium ==> Untouched(old(world), world)
      ensures Supply(world) <= Supply(old(world))
      ensures contract.code == [] ==> err == NoError && world == old(world) && contract.gas == old(contract.gas)
      decreases contract.gas, 5
    {
      hide RefundCovers, Untouched, Supply;
      depth := depth + 1;
      var locking := frozen && !readOnly;
      if locking {
        readOnly := true;
      }
      returnData := [];
      if contract.code == [] {
        TouchOnly(world, 0, 0);
        ret, err := [], NoError;
      } else {
        ret, err := Loop(contract);
      }
      if locking {
        readOnly := false;
      }
      depth := depth - 1;
    }

    /** The step loop of `Run`, which may also be cancelled from outside. */
    method Loop(contract: Contract) returns (ret: seq<Byte>, err: Error)
      requires contract.Valid() && 1 <= depth <= CALL_CREATE_DEPTH + 1 && RefundCovers(world)
      modifies this, contract, contract.jumpdests
      ensures contract.Valid() && contract.gas <= old(contract.gas)
      ensures depth == old(depth) && readOnly == old(readOnly)
      ensures err == NoError ==> RefundCovers(world)
      ensures FrameError(err)
      ensures Locked() ==> Untouched(old(world), world)
      ensures Supply(world) <= Supply(old(world))
      decreases contract.gas, 4
    {
      hide RefundCovers, Untouched, Supply;
      TouchOnly(world, 0, 0);
      var mem := new Memory();
      var stack: seq<Word> := [];
      var pc: nat := 0;
      var cancelled: bool := *;
      while !cancelled
        invariant contract.Valid() && mem.Valid() && fresh(mem) && |stack| <= STACK_LIMIT && AtStart(contract.code, pc)
        invariant contract.gas <= old(contract.gas) && depth == old(depth) && readOnly == old(readOnly)
        invariant RefundCovers(world) && (Locked() ==> Untouched(old(world), world)) && Supply(world) <= Supply(old(world))
        decreases contract.gas
      {
        ghost var before := world;
        var out: Outcome;
        out, stack := Step(contract, mem, stack, pc);
        if readOnly && rules.byzantium {
          UntouchedTrans(old(world), before, world);
        }
        match out {
          case Next(pc') => pc := pc';
          case Halted(r) => return r, NoError;
          case Failed(e, r) => return r, e;
        }
        cancelled := *;
      }
      return [], NoError;
    }

    /** One round of the loop: checks, gas, memory, and then the operation itself. */
    method Step(contract: Contract, mem: Memory, stack: seq<Word>, pc: nat)
      returns (out: Outcome, stack': seq<Word>)
      requires contract.Valid() && mem.Valid() && |stack| <= STACK_LIMIT && AtStart(contract.code, pc)
      requires 1 <= depth <= CALL_CREATE_DEPTH + 1 && RefundCovers(world)
      modifies this, contract, contract.jumpdests, mem
      ensures contract.Valid() && contract.gas <= old(contract.gas)
      ensures depth == old(depth) && readOnly == old(readOnly)
      ensures out.Next? ==>
                contract.gas < old(contract.gas) && mem.Valid() && |stack'| <= STACK_LIMIT && AtStart(contract.code, out.pc)
      ensures !out.Failed? ==> RefundCovers(world)
      ensures out.Failed? ==> out.err != NoError && FrameError(out.err)
      ensures Locked() ==> Untouched(old(world), world)
      ensures Supply(world) <= Supply(old(world))
      decreases contract.gas, 3
    {
      hide RefundCovers, Untouched, Supply, Lookup, Chargeable, LeastCost, MemoryNeed, Fee;
      TouchOnly(world, 0, 0);
      stack' := stack;
      var found := Lookup(contract.GetOp(pc), rules);
      if found.None? {
        return Failed(InvalidOpcode, []), stack';
      }
      var o := found.value;
      OperationsCharge(contract.GetOp(pc), rules);
      if |stack| < o.pops {
        return Failed(StackUnderflow, []), stack';
      }
      OpReaches(o, stack);
      if |stack| > STACK_LIMIT + o.pops - o.pushes {
        return Failed(StackLimit, []), stack';
      }
      if readOnly && rules.byzantium && (o.writes || (o.action == Action.Call(CallKind) && Back(stack, 2) != 0)) {
        return Failed(WriteProtection, []), stack';
      }
      out, stack' := Perform(o, contract, mem, stack, pc);
    }

    /** Charges for an operation that may be performed, performs it, and decides how to go on. */
    method Perform(o: Operation, contract: Contract, mem: Memory, stack: seq<Word>, pc: nat)
      returns (out: Outcome, stack': seq<Word>)
      requires contract.Valid() && mem.Valid() && Chargeable(o)
      requires o.pops <= |stack| <= STACK_LIMIT + o.pops - o.pushes && AtStart(contract.code, pc)
      requires Lookup(contract.GetOp(pc), rules) == Some(o)
      requires 1 <= depth <= CALL_CREATE_DEPTH + 1 && RefundCovers(world)
      requires Permitted(o, stack, readOnly && rules.byzantium)
      modifies this, contract, contract.jumpdests, mem
      ensures contract.Valid() && contract.gas <= old(contract.gas)
      ensures depth == old(depth) && readOnly == old(readOnly)
      ensures out.Next? ==>
                contract.gas < old(contract.gas) && mem.Valid() && |stack'| <= STACK_LIMIT && AtStart(contract.code, out.pc)
      ensures !out.Failed? ==> RefundCovers(world)
      ensures out.Failed? ==> out.err != NoError && FrameError(out.err)
      ensures Locked() ==> Untouched(old(world), world)
      ensures Supply(world) <= Supply(old(world))
      decreases contract.gas, 2
    {
      hide RefundCovers, Untouched, Supply, Lookup, Chargeable, LeastCost, WellFormed, Fee, AtStart, Moves, AllCovered, Reaches;
      TouchOnly(world, 0, 0);
      OpReaches(o, stack);
      stack' := stack;
      ghost var before := world;
      var paid := Charge(o, contract, mem, stack);
      SameSupply(before, world);
      if paid != NoError {
        return Failed(paid, []), stack';
      }
      var pc', ret, err;
      pc', stack', ret, err := Execute(o, contract, mem, stack, pc, old(contract.gas));
      if o.Returns() {
        returnData := ret;
      }
      if err != NoError {
        return Failed(err, []), stack';
      }
      if o.action.Revert? {
        return Failed(Reverted, ret), stack';
      }
      if o.Halts() {
        return Halted(ret), stack';
      }
      Advance(contract.code, rules, pc, pc', o);
      out := Next(if o.action.Jump? || o.action.JumpIf? then pc' else pc' + 1);
    }

    /** Takes the cost of an operation and makes the memory it needs. */
    method Charge(o: Operation, contract: Contract, mem: Memory, stack: seq<Word>) returns (err: Error)
      requires contract.Valid() && mem.Valid() && Chargeable(o) && o.pops <= |stack| && RefundCovers(world)
      modifies this`world, this`callGasTemp, contract`gas, mem
      ensures contract.Valid() && contract.gas <= old(contract.gas)
      ensures err == NoError || err == OutOfGas || err == GasOverflow
      ensures Reaches(o, stack)
      ensures err == NoError ==> mem.Valid() && AllCovered(o, stack, |mem.store|) && contract.gas + LeastCost(o) <= old(contract.gas)
      ensures err == NoError && o.action.Call? ==>
                |stack| >= 3 &&
                contract.gas + callGasTemp + 40 +
                (if TransfersValue(o.action.kind, stack) then CALL_VALUE_TRANSFER else 0) <= old(contract.gas)
      ensures err == NoError ==> RefundReady(o, world, contract.self, stack)
      ensures world.accounts == old(world).accounts && (!o.writes ==> world == old(world))
    {
      hide RefundCovers, Fee, MemoryNeed, AllCovered, Chargeable, LeastCost;
      OpReaches(o, stack);
      var ok := contract.UseGas(o.constantGas);
      if !ok {
        return OutOfGas;
      }
      var size := MemoryNeed(o, stack);
      NeedCovers(o, stack);
      if size.None? {
        return GasOverflow;
      }
      var cost := DynamicGas(o, contract, stack, mem, size.value);
      if cost.None? {
        return OutOfGas;
      }
      ok := contract.UseGas(cost.value);
      if !ok {
        return OutOfGas;
      }
      mem.Resize(size.value);
      CoveredMore(o, stack, size.value, |mem.store|);
      return NoError;
    }

    /** Carries out an operation that has been paid for. */
    method Execute(o: Operation, contract: Contract, mem: Memory, stack: seq<Word>, pc: nat, ghost bound: nat)
      returns (pc': nat, stack': seq<Word>, ret: seq<Byte>, err: Error)
      requires contract.Valid() && mem.Valid() && WellFormed(o) && o.pops <= |stack|
      requires Reaches(o, stack) && AllCovered(o, stack, |mem.store|)
      requires 1 <= depth <= CALL_CREATE_DEPTH + 1 && RefundReady(o, world, contract.self, stack)
      requires Permitted(o, stack, readOnly && rules.byzantium)
      requires o.action.Call? ==> |stack| >= 3
      requires contract.gas + Passed(o, stack, callGasTemp) <= bound < UINT64
      requires o.action.Call? || o.action.Create? ==> contract.gas + Passed(o, stack, callGasTemp) < bound
      modifies this, contract, contract.jumpdests, mem
      ensures contract.Valid() && mem.Valid()
      ensures contract.gas <= old(contract.gas) + Passed(o, stack, old(callGasTemp))
      ensures depth == old(depth) && readOnly == old(readOnly)
      ensures err == NoError ==> RefundCovers(world) && |stack'| == |stack| - o.pops + o.pushes && Moves(contract.code, pc, pc', o)
      ensures FrameError(err)
      ensures Locked() ==> Untouched(old(world), world)
      ensures Supply(world) <= Supply(old(world))
      decreases bound, 1
    {
      hide RefundCovers, Untouched, Supply, Fee, IsJumpdest, AllCovered;
      TouchOnly(world, 0, 0);
      pc', ret, err := pc, [], NoError;
      if o.action.Jump? || o.action.JumpIf? {
        pc', stack', err := ExecuteJump(contract, stack, pc, o.action.JumpIf?);
      } else if o.action.Create? {
        stack', ret := ExecuteCreate(o, contract, mem, stack, bound);
      } else if o.action.Call? {
        stack', ret := ExecuteCall(o, contract, mem, stack, bound);
      } else if IsState(o.action) {
        stack' := ExecuteState(o, contract, mem, stack);
      } else {
        if o.action.PushData? {
          pc' := pc + o.action.size;
        }
        stack', ret, err := ExecuteLocal(o, mem, stack);
      }
    }

    /** The instructions that act on the state. */
    method ExecuteState(o: Operation, contract: Contract, mem: Memory, stack: seq<Word>) returns (stack': seq<Word>)
      requires WellFormed(o) && o.pops <= |stack| && IsState(o.action)
      requires Reaches(o, stack) && AllCovered(o, stack, |mem.store|)
      requires RefundReady(o, world, contract.self, stack) && Permitted(o, stack, readOnly && rules.byzantium)
      modifies this`world
      ensures RefundCovers(world) && |stack'| == |stack| - o.pops + o.pushes
      ensures stack'[..|stack| - o.pops] == stack[..|stack| - o.pops]
      ensures o.action.LoadStorage? ==>
                world == old(world) && stack'[|stack| - 1] == world.GetState(contract.self, Back(stack, 0)) % WORD
      ensures o.action.StoreStorage? ==> world == old(world).SetState(contract.self, Back(stack, 0), Back(stack, 1))
      ensures o.action.EmitLog? ==> |world.logs| == |old(world).logs| + 1 && world == old(world).(logs := world.logs)
      ensures o.action.SelfDestruct? ==>
                var heir := ToAddress(Back(stack, 0));
                world == old(world).AddBalance(heir, old(world).At(contract.self).balance).Suicide(contract.self)
      ensures Locked() ==> Untouched(old(world), world)
      ensures Supply(world) <= Supply(old(world))
    {
      StateShape(o, stack, |mem.store|);
      hide RefundCovers, Untouched, Supply, WellFormed, AllCovered, Reaches;
      TouchOnly(world, 0, 0);
      if o.action.LoadStorage? {
        var value: Word := world.GetState(contract.self, Back(stack, 0)) % WORD;
        stack' := stack[..|stack| - 1] + [value];
      } else if o.action.StoreStorage? {
        StoreSupply(world, contract.self, Back(stack, 0), Back(stack, 1));
        world := world.SetState(contract.self, Back(stack, 0), Back(stack, 1));
        stack' := stack[..|stack| - 2];
      } else if o.action.EmitLog? {
        ghost var before := world;
        stack' := ExecuteLog(contract, mem, stack, o.action.topics);
        SameSupply(before, world);
      } else {
        Destroy(contract.self, ToAddress(Back(stack, 0)));
        stack' := stack[..|stack| - 1];
      }
    }

    /** `opSuicide`. */
    method Destroy(self: Address, heir: Address)
      requires RefundCovers(world)
      modifies this`world
      ensures world == old(world).AddBalance(heir, old(world).At(self).balance).Suicide(self)
      ensures RefundCovers(world) && Supply(world) <= Supply(old(world))
    {
      hide *;
      DestroyCovers(world, self, heir);
      SupplyDestroy(world, self, heir);
      world := world.AddBalance(heir, world.At(self).balance).Suicide(self);
    }

    /** The instructions that act on the stack and the memory only. */
    method ExecuteLocal(o: Operation, mem: Memory, stack: seq<Word>)
      returns (stack': seq<Word>, ret: seq<Byte>, err: Error)
      requires mem.Valid() && WellFormed(o) && o.pops <= |stack|
      requires Reaches(o, stack) && AllCovered(o, stack, |mem.store|)
      modifies mem
      ensures mem.Valid() && (err == NoError || err == ReturnDataOutOfBounds)
      ensures |stack'| == |stack| - o.pops + o.pushes
      ensures o.action.Dup? ==> stack' == stack + [Back(stack, o.action.n - 1)]
      ensures o.action.Swap? ==>
                var n, k := |stack|, o.action.n;
                stack' == stack[n - k := stack[n - 1]][n - 1 := stack[n - k]]
      ensures !o.action.Dup? && !o.action.Swap? ==> stack'[..|stack| - o.pops] == stack[..|stack| - o.pops]
    {
      hide AllCovered, Fee;
      ret, err := [], NoError;
      if o.action.Dup? {
        stack' := stack + [Back(stack, o.action.n - 1)];
      } else if o.action.Swap? {
        var top, low := |stack| - 1, |stack| - o.action.n;
        stack' := stack[low := stack[top]][top := stack[low]];
      } else {
        ret, err := ExecuteMemory(o, mem, stack);
        stack' := Replaced(stack, o.pops, o.pushes);
      }
    }

    /** Takes `pops` items and leaves `pushes` unknown ones. */
    method Replaced(stack: seq<Word>, pops: nat, pushes: nat) returns (stack': seq<Word>)
      requires pops <= |stack|
      ensures |stack'| == |stack| - pops + pushes && stack'[..|stack| - pops] == stack[..|stack| - pops]
    {
      var words := Arbitrary(pushes);
      stack' := stack[..|stack| - pops] + words;
    }

    /** `opJump` and `opJumpi`. */
    method ExecuteJump(contract: Contract, stack: seq<Word>, pc: nat, conditional: bool)
      returns (pc': nat, stack': seq<Word>, err: Error)
      requires contract.Valid() && |stack| >= if conditional then 2 else 1
      modifies contract`analysis, contract.jumpdests
      ensures contract.Valid() && |stack'| == |stack| - (if conditional then 2 else 1)
      ensures err == NoError || err == InvalidJump
      ensures err == NoError ==>
                if conditional && Back(stack, 1) == 0 then pc' == pc + 1
                else pc' == Back(stack, 0) && IsJumpdest(contract.code, pc')
    {
      err, pc' := NoError, pc;
      stack' := stack[..|stack| - (if conditional then 2 else 1)];
      if conditional && Back(stack, 1) == 0 {
        pc' := pc + 1;
        return;
      }
      var ok := contract.ValidJumpdest(Back(stack, 0));
      if !ok {
        err := InvalidJump;
        return;
      }
      pc' := Back(stack, 0);
    }

    /** Whether an instruction writes to memory. */
    predicate Writes(a: Action)
    {
      a.StoreWord? || a.StoreByte? || a.Copy? || a.CopyReturnData?
    }

    /** The instructions that only read or write the contract's memory. */
    method ExecuteMemory(o: Operation, mem: Memory, stack: seq<Word>) returns (ret: seq<Byte>, err: Error)
      requires mem.Valid() && WellFormed(o) && o.pops <= |stack|
      requires Reaches(o, stack) && AllCovered(o, stack, |mem.store|)
      modifies mem
      ensures mem.Valid() && (err == NoError || err == ReturnDataOutOfBounds) && |mem.store| == |old(mem.store)|
      ensures o.action.StoreWord? ==>
                var at := Back(stack, 0);
                mem.store[at..at + 32] == WordBytes(Back(stack, 1), 32) && mem.store[..at] == old(mem.store)[..at] &&
                mem.store[at + 32..] == old(mem.store)[at + 32..]
      ensures o.action.StoreByte? ==> mem.store == old(mem.store)[Back(stack, 0) := Back(stack, 1) % 256]
      ensures o.action.Copy? ==> SameOutside(old(mem.store), mem.store, Back(stack, o.action.offset), Back(stack, o.action.length))
      ensures o.action.CopyReturnData? ==> (err == NoError <==> Back(stack, 1) + Back(stack, 2) <= |returnData|)
      ensures o.action.CopyReturnData? && err == NoError ==>
                var at, from, length := Back(stack, 0), Back(stack, 1), Back(stack, 2);
                SameOutside(old(mem.store), mem.store, at, length) &&
                (length > 0 ==> mem.store[at..at + length] == returnData[from..from + length])
      ensures err != NoError ==> mem.store == old(mem.store)
      ensures (o.action.Return? || o.action.Revert?) && Back(stack, 1) > 0 ==>
                ret == mem.store[Back(stack, 0)..Back(stack, 0) + Back(stack, 1)]
      ensures !Writes(o.action) ==> mem.store == old(mem.store)
    {
      ret, err := [], NoError;
      match o.action {
        case LoadMemory => var _ := mem.Get(Back(stack, 0), 32);
        case HashMemory => var _ := mem.Get(Back(stack, 0), Back(stack, 1));
        case StoreWord => mem.Set32(Back(stack, 0), Back(stack, 1));
        case StoreByte => mem.Set(Back(stack, 0), 1, [Back(stack, 1) % 256]);
        case Copy(offset, length) =>
          var data := ArbitraryBytes();
          mem.Set(Back(stack, offset), Back(stack, length), data);
        case CopyReturnData =>
          var from, length := Back(stack, 1), Back(stack, 2);
          if from + length > |returnData| {
            err := ReturnDataOutOfBounds;
            return;
          }
          mem.Set(Back(stack, 0), length, returnData[from..from + length]);
        case Return => ret := mem.Get(Back(stack, 0), Back(stack, 1));
        case Revert => ret := mem.Get(Back(stack, 0), Back(stack, 1));
        case _ =>
      }
    }

    /** The log entry that an instruction describes. */
    ghost predicate Logs(log: Log, self: Address, mem: Memory, stack: seq<Word>, topics: nat)
      requires |stack| >= topics + 2
      requires Back(stack, 1) > 0 ==> Back(stack, 0) + Back(stack, 1) <= |mem.store|
      reads mem
    {
      log.address == self && |log.topics| == topics && |log.data| == Back(stack, 1) &&
      (forall i :: 0 <= i < topics ==> log.topics[i] == Back(stack, i + 2)) &&
      (Back(stack, 1) > 0 ==> log.data == mem.store[Back(stack, 0)..Back(stack, 0) + Back(stack, 1)])
    }

    /** `makeLog`. */
    method ExecuteLog(contract: Contract, mem: Memory, stack: seq<Word>, topics: nat) returns (stack': seq<Word>)
      requires |stack| >= topics + 2 && RefundCovers(world)
      requires Back(stack, 1) > 0 ==> Back(stack, 0) + Back(stack, 1) <= |mem.store|
      modifies this`world
      ensures RefundCovers(world) && stack' == stack[..|stack| - topics - 2]
      ensures |world.logs| == |old(world).logs| + 1 && world == old(world).(logs := world.logs)
      ensures world.logs[..|old(world).logs|] == old(world).logs
      ensures Logs(world.logs[|old(world).logs|], contract.self, mem, stack, topics)
    {
      var data := mem.Get(Back(stack, 0), Back(stack, 1));
      var names := seq(topics, i requires 0 <= i < topics => Back(stack, i + 2) as nat);
      CoversShrinks(world, world.AddLog(Log(contract.self, names, data)));
      world := world.AddLog(Log(contract.self, names, data));
      stack' := stack[..|stack| - topics - 2];
    }

    /** `opCall`, `opCallCode`, `opDelegateCall` and `opStaticCall`. */
    method ExecuteCall(o: Operation, contract: Contract, mem: Memory, stack: seq<Word>, ghost bound: nat)
      returns (stack': seq<Word>, ret: seq<Byte>)
      requires contract.Valid() && mem.Valid() && WellFormed(o) && o.action.Call? && o.pops <= |stack|
      requires Reaches(o, stack) && AllCovered(o, stack, |mem.store|)
      requires 1 <= depth <= CALL_CREATE_DEPTH + 1 && RefundCovers(world)
      requires Permitted(o, stack, readOnly && rules.byzantium)
      requires contract.gas + Passed(o, stack, callGasTemp) < bound < UINT64
      modifies this, contract, contract.jumpdests, mem
      ensures contract.Valid() && mem.Valid() && RefundCovers(world)
      ensures contract.gas <= old(contract.gas) + Passed(o, stack, old(callGasTemp))
      ensures depth == old(depth) && readOnly == old(readOnly) && |stack'| == |stack| - o.pops + 1
      ensures var rest := stack[..|stack| - o.pops];
              stack' == rest + [1] || (stack' == rest + [0] && world == old(world))
      ensures var at, size := Back(stack, o.pops - 2), Back(stack, o.pops - 1);
              |mem.store| == |old(mem.store)| &&
              forall i :: 0 <= i < |mem.store| && !(at <= i < at + size) ==> mem.store[i] == old(mem.store)[i]
      ensures Locked() ==> Untouched(old(world), world)
      ensures Supply(world) <= Supply(old(world))
      decreases bound, 0
    {
      hide RefundCovers, Untouched, Supply, Fee;
      var kind := o.action.kind;
      var gas := Passed(o, stack, callGasTemp);
      var to := ToAddress(Back(stack, 1));
      var valued := kind.CallKind? || kind.CallCodeKind?;
      var value: nat := if valued then Back(stack, 2) else 0;
      var at := if valued then 3 else 2;
      var input := mem.Get(Back(stack, at), Back(stack, at + 1));
      var left, err;
      ret, left, err := Dispatch(kind, contract, to, input, gas, value);
      stack' := stack[..|stack| - o.pops] + [if err == NoError then 1 else 0];
      if err == NoError || err == Reverted {
        mem.Set(Back(stack, at + 2), Back(stack, at + 3), ret);
      }
      contract.gas := contract.gas + left;
    }

    /** Which kind of call to make. */
    method Dispatch(kind: CallKind, contract: Contract, to: Address, input: seq<Byte>, gas: nat, value: nat)
      returns (ret: seq<Byte>, left: nat, err: Error)
      requires contract.Valid() && gas < UINT64 && 1 <= depth <= CALL_CREATE_DEPTH + 1 && RefundCovers(world)
      requires readOnly && rules.byzantium && kind.CallKind? ==> value == 0
      modifies this, contract.jumpdests
      ensures contract.Valid() && RefundCovers(world) && left <= gas
      ensures depth == old(depth) && readOnly == old(readOnly)
      ensures err != NoError ==> world == old(world)
      ensures Locked() ==> Untouched(old(world), world)
      ensures Supply(world) <= Supply(old(world))
      decreases gas, 8
    {
      hide RefundCovers, Untouched, Supply;
      match kind {
        case CallKind => ret, left, err := Call(contract.self, contract.jumpdests, to, input, gas, value);
        case CallCodeKind =>
          ret, left, err := CallHere(contract.self, contract.self, contract.jumpdests, to, input, gas, value, true);
        case DelegateKind =>
          ret, left, err := CallHere(contract.self, contract.caller, contract.jumpdests, to, input, gas, contract.value, false);
        case StaticKind => ret, left, err := StaticCall(contract.self, contract.jumpdests, to, input, gas);
      }
    }

    /** `opCreate` and `opCreate2`. */
    method ExecuteCreate(o: Operation, contract: Contract, mem: Memory, stack: seq<Word>, ghost bound: nat)
      returns (stack': seq<Word>, ret: seq<Byte>)
      requires contract.Valid() && mem.Valid() && WellFormed(o) && o.action.Create? && o.pops <= |stack|
      requires Reaches(o, stack) && AllCovered(o, stack, |mem.store|)
      requires 1 <= depth <= CALL_CREATE_DEPTH + 1 && RefundCovers(world)
      requires contract.gas < bound < UINT64
      modifies this, contract, contract.jumpdests
      ensures contract.Valid() && RefundCovers(world)
      ensures contract.gas <= old(contract.gas)
      ensures depth == old(depth) && readOnly == old(readOnly) && |stack'| == |stack| - o.pops + 1
      ensures stack'[..|stack| - o.pops] == stack[..|stack| - o.pops]
      ensures Supply(world) <= Supply(old(world))
      decreases bound, 0
    {
      hide RefundCovers, Fee, Supply;
      var code := mem.Get(Back(stack, 1), Back(stack, 2));
      var gas := contract.gas;
      if o.action.salted || rules.eip150 {
        gas := gas - gas / 64;
      }
      var _ := contract.UseGas(gas);
      var left, err;
      var address := ArbitraryNumber();
      ret, left, err := CreateAt(contract.self, contract.jumpdests, code, o.action.salted, gas, Back(stack, 0), ToAddress(address));
      var failed := if o.action.salted then err != NoError
                    else err != NoError && (err != CodeStoreOutOfGas || rules.homestead);
      stack' := stack[..|stack| - o.pops] + [if failed then 0 else ToAddress(address)];
      contract.gas := contract.gas + left;
      if err != Reverted {
        ret := [];
      }
    }

    /** `create`. */
    method CreateAt(caller: Address, cache: JumpCache, code: seq<Byte>, hashed: bool, gas: nat, value: nat, address: Address)
      returns (ret: seq<Byte>, left: nat, err: Error)
      requires gas < UINT64 && depth <= CALL_CREATE_DEPTH + 1 && cache.Valid() && RefundCovers(world)
      modifies this, cache
      ensures cache.Valid() && RefundCovers(world)
      ensures depth == old(depth) && readOnly == old(readOnly)
      ensures left <= gas
      ensures err != NoError && (err != CodeStoreOutOfGas || rules.homestead) ==>
                world == if PreCheck(err) then old(world) else old(world).SetNonce(caller, old(world).At(caller).nonce + 1)
      ensures err != NoError && err != Reverted && (err != CodeStoreOutOfGas || rules.homestead) ==>
                left == 0 || (PreCheck(err) && left == gas)
      ensures Supply(world) <= Supply(old(world))
      decreases gas, 7
    {
      hide RefundCovers, Untouched, Supply;
      if depth > CALL_CREATE_DEPTH {
        return [], gas, DepthExceeded;
      }
      if !CanTransfer(world, caller, value) {
        return [], gas, InsufficientBalance;
      }
      SupplyWith(world, caller, world.At(caller).(nonce := world.At(caller).nonce + 1));
      CoversWith(world, caller, world.At(caller).(nonce := world.At(caller).nonce + 1));
      world := world.SetNonce(caller, world.At(caller).nonce + 1);
      if world.At(address).nonce != 0 || world.At(address).code != [] {
        return [], 0, AddressCollision;
      }
      var snapshot := world;
      CreateCovers(world, caller, address, value, rules.eip158);
      world := world.CreateAccount(address);
      if rules.eip158 {
        world := world.SetNonce(address, 1);
      }
      world := Transfer(world, caller, address, value);
      var contract := new Contract(address, caller, value, gas, code, if hashed then HashOf(code) else NoHash, cache);
      if noRecursion && depth > 0 {
        return [], gas, NoError;
      }
      ret, err := RunContract(contract, address, [], false);
      err := Deploy(contract, address, ret, err, snapshot);
      left := contract.gas;
    }

    /** The end of `create`: pays for the code and stores it, or goes back to the snapshot. */
    method Deploy(contract: Contract, address: Address, ret: seq<Byte>, result: Error, snapshot: World) returns (err: Error)
      requires contract.Valid() && FrameError(result) && RefundCovers(snapshot)
      requires result == NoError ==> RefundCovers(world)
      modifies this`world, contract`gas
      ensures contract.Valid() && RefundCovers(world) && !PreCheck(err) && contract.gas <= old(contract.gas)
      ensures err != NoError && (err != CodeStoreOutOfGas || rules.homestead) ==> world == snapshot
      ensures Supply(world) <= Larger(Supply(old(world)), Supply(snapshot))
      ensures err != NoError && err != Reverted && (err != CodeStoreOutOfGas || rules.homestead) ==> contract.gas == 0
      ensures err == NoError <==>
                result == NoError && !(rules.eip158 && |ret| > MAX_CODE_SIZE) &&
                |ret| * CREATE_DATA_GAS <= old(contract.gas)
      ensures err == NoError ==>
                world == old(world).SetCode(address, ret) && contract.gas == old(contract.gas) - |ret| * CREATE_DATA_GAS
    {
      hide RefundCovers, Supply;
      err := result;
      var tooLong := rules.eip158 && |ret| > MAX_CODE_SIZE;
      if err == NoError && !tooLong {
        var ok := contract.UseGas(|ret| * CREATE_DATA_GAS);
        if ok {
          CoversWith(world, address, world.At(address).(code := ret));
          SupplyWith(world, address, world.At(address).(code := ret));
          world := world.SetCode(address, ret);
        } else {
          err := CodeStoreOutOfGas;
        }
      }
      if tooLong || (err != NoError && (rules.homestead || err != CodeStoreOutOfGas)) {
        world := snapshot;
        if err != Reverted {
          var _ := contract.UseGas(contract.gas);
        }
      }
      if tooLong && err == NoError {
        err := MaxCodeSizeExceeded;
      }
    }
  }

  /** What running a contract may report. */
  predicate FrameError(err: Error)
  {
    !PreCheck(err) && err != AddressCollision && err != CodeStoreOutOfGas && err != MaxCodeSizeExceeded
  }

  /** The instructions that act on the state. */
  /** What the instructions that act on the state take and leave. */
  lemma StateShape(o: Operation, stack: seq<Word>, size: nat)
    requires WellFormed(o) && IsState(o.action) && o.pops <= |stack| && Reaches(o, stack) && AllCovered(o, stack, size)
    ensures o.action.LoadStorage? ==> o.pops == 1 && o.pushes == 1
    ensures o.action.StoreStorage? ==> o.pops == 2 && o.pushes == 0 && o.writes
    ensures o.action.SelfDestruct? ==> o.pops == 1 && o.pushes == 0 && o.writes
    ensures o.action.EmitLog? ==>
              o.pops == o.action.topics + 2 && o.pushes == 0 && o.writes &&
              (Back(stack, 1) > 0 ==> Back(stack, 0) + Back(stack, 1) <= size)
  {
  }

  predicate IsState(a: Action)
  {
    a.LoadStorage? || a.StoreStorage? || a.EmitLog? || a.SelfDestruct?
  }

  lemma CreateCovers(w: World, caller: Address, address: Address, value: nat, eip158: bool)
    requires RefundCovers(w) && CanTransfer(w, caller, value)
    ensures var a := w.CreateAccount(address);
            var b := if eip158 then a.SetNonce(address, 1) else a;
            CanTransfer(b, caller, value) && RefundCovers(Transfer(b, caller, address, value)) &&
            Supply(Transfer(b, caller, address, value)) == Supply(w)
  {
    hide RefundCovers, Supply;
    var a := w.CreateAccount(address);
    var b := if eip158 then a.SetNonce(address, 1) else a;
    CoversWith(w, address, NO_ACCOUNT.(balance := w.At(address).balance));
    CoversWith(a, address, a.At(address).(nonce := 1));
    SupplyWith(w, address, NO_ACCOUNT.(balance := w.At(address).balance));
    SupplyWith(a, address, a.At(address).(nonce := 1));
    SupplyTransfer(b, caller, address, value);
    var c := b.SubBalance(caller, value);
    CoversWith(b, caller, b.At(caller).(balance := b.At(caller).balance - value));
    CoversWith(c, address, c.At(address).(balance := c.At(address).balance + value));
  }

  /** The errors that a call returns before it has done anything. */
  predicate PreCheck(err: Error)
  {
    err.DepthExceeded? || err.InsufficientBalance?
  }
}
