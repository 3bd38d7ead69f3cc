/**
 The instruction sets: for each opcode, how many stack items it takes and leaves,
 what it costs, which memory it needs and what it does to control flow.
 */
module EvmOps {
  import opened Bytes
  import opened EvmMemory

  const WORD := 0x1_0000000000000000_0000000000000000_0000000000000000_0000000000000000

  type Word = w: int | 0 <= w < WORD

  const STACK_LIMIT := 1024

  datatype GasTable = GasTable(
    extcodeSize: nat, extcodeCopy: nat, extcodeHash: nat, balance: nat, sload: nat,
    calls: nat, suicide: nat, expByte: nat, createBySuicide: nat)

  datatype Rules = Rules(
    homestead: bool, eip150: bool, eip158: bool, byzantium: bool, constantinople: bool, petersburg: bool)
  {
    /** `ChainConfig.GasTable`. */
    function Table(): (t: GasTable)
      ensures t.balance >= 1 && t.sload >= 1 && t.calls >= 1 && t.extcodeSize >= 1 && t.extcodeCopy >= 1
      ensures constantinople ==> t.extcodeHash >= 1
    {
      if constantinople then GasTable(700, 700, 400, 400, 200, 700, 5000, 50, 25000)
      else if eip158 then GasTable(700, 700, 0, 400, 200, 700, 5000, 50, 25000)
      else if eip150 then GasTable(700, 700, 0, 400, 200, 700, 5000, 10, 25000)
      else GasTable(20, 20, 0, 20, 50, 40, 0, 10, 0)
    }
  }

  /** A memory region, by the stack positions of its offset and length. */
  datatype Region = Region(offset: nat, length: nat) | Fixed(offset: nat, size: nat)

  datatype CallKind = CallKind | CallCodeKind | DelegateKind | StaticKind

  /** The part of the cost that depends on the stack, the memory and the state. */
  datatype Dynamic =
    | NoDynamic
    | Flat(amount: nat)
    | ExpGas
    | MemoryPlus(amount: nat)
    | PerWord(amount: nat, perWord: nat, sizeAt: nat)
    | LogGas(topics: nat)
    | StoreGas
    | CallGas(kind: CallKind)
    | SuicideGas

  datatype Action =
    | Compute
    | PushData(size: nat)
    | Dup(n: nat)
    | Swap(n: nat)
    | Jump
    | JumpIf
    | LoadMemory
    | HashMemory
    | StoreWord
    | StoreByte
    | Copy(offset: nat, length: nat)
    | CopyReturnData
    | LoadStorage
    | StoreStorage
    | EmitLog(topics: nat)
    | Create(salted: bool)
    | Call(kind: CallKind)
    | Stop
    | Return
    | Revert
    | SelfDestruct

  datatype Operation = Operation(
    pops: nat, pushes: nat, constantGas: nat, dynamic: Dynamic, memory: seq<Region>, action: Action, writes: bool)
  {
    predicate Halts()
    {
      action.Stop? || action.Return? || action.SelfDestruct?
    }

    /** Whether the operation sets the return data. */
    predicate Returns()
    {
      action.Create? || action.Call? || action.Revert?
    }
  }

  function Simple(pops: nat, pushes: nat, gas: nat): (op: Operation)
  {
    Operation(pops, pushes, gas, NoDynamic, [], Compute, false)
  }

  function Acting(pops: nat, pushes: nat, gas: nat, action: Action): (op: Operation)
  {
    Operation(pops, pushes, gas, NoDynamic, [], action, false)
  }

  function Charging(pops: nat, pushes: nat, dynamic: Dynamic, memory: seq<Region>, action: Action): (op: Operation)
  {
    Operation(pops, pushes, 0, dynamic, memory, action, false)
  }

  function Writing(pops: nat, pushes: nat, dynamic: Dynamic, memory: seq<Region>, action: Action): (op: Operation)
  {
    Operation(pops, pushes, 0, dynamic, memory, action, true)
  }

  /** The operation that an opcode stands for under the given rules, if any. */
  function Lookup(op: Byte, rules: Rules): (o: Option<Operation>)
  {
    if op < 0x20 then LookupArithmetic(op, rules)
    else if op < 0x3b then LookupContext(op, rules)
    else if op < 0x50 then LookupExternal(op, rules)
    else if op < 0x60 then LookupStorage(op, rules)
    else if op < 0xa0 then Some(LookupStack(op))
    else if op < 0xf3 then LookupLog(op)
    else LookupSystem(op, rules)
  }

  function LookupArithmetic(op: Byte, rules: Rules): (o: Option<Operation>)
    requires op < 0x20
  {
    if op == 0x00 then Some(Acting(0, 0, 0, Stop))
    else if op == 0x01 || op == 0x03 then Some(Simple(2, 1, 3))
    else if op <= 0x07 then Some(Simple(2, 1, 5))
    else if op <= 0x09 then Some(Simple(3, 1, 8))
    else if op == 0x0a then Some(Charging(2, 1, ExpGas, [], Compute))
    else if op == 0x0b then Some(Simple(2, 1, 5))
    else if op < 0x10 then None
    else if op == 0x15 || op == 0x19 then Some(Simple(1, 1, 3))
    else if op <= 0x1a then Some(Simple(2, 1, 3))
    else if op <= 0x1d && rules.constantinople then Some(Simple(2, 1, 3))
    else None
  }

  function LookupContext(op: Byte, rules: Rules): (o: Option<Operation>)
    requires 0x20 <= op < 0x3b
  {
    var t := rules.Table();
    if op == 0x20 then Some(Charging(2, 1, PerWord(30, 6, 1), [Region(0, 1)], HashMemory))
    else if op < 0x30 then None
    else if op == 0x31 then Some(Charging(1, 1, Flat(t.balance), [], Compute))
    else if op == 0x35 then Some(Simple(1, 1, 3))
    else if op == 0x37 || op == 0x39 then Some(Charging(3, 0, PerWord(3, 3, 2), [Region(0, 2)], Copy(0, 2)))
    else Some(Simple(0, 1, 2))
  }

  function LookupExternal(op: Byte, rules: Rules): (o: Option<Operation>)
    requires 0x3b <= op < 0x50
  {
    var t := rules.Table();
    if op == 0x3b then Some(Charging(1, 1, Flat(t.extcodeSize), [], Compute))
    else if op == 0x3c then Some(Charging(4, 0, PerWord(t.extcodeCopy, 3, 3), [Region(1, 3)], Copy(1, 3)))
    else if op == 0x3d then if rules.byzantium || rules.constantinople then Some(Simple(0, 1, 2)) else None
    else if op == 0x3e then
      if rules.byzantium || rules.constantinople
      then Some(Charging(3, 0, PerWord(3, 3, 2), [Region(0, 2)], CopyReturnData)) else None
    else if op == 0x3f then
      if rules.constantinople then Some(Charging(1, 1, Flat(t.extcodeHash), [], Compute)) else None
    else if op == 0x40 then Some(Simple(1, 1, 20))
    else if op <= 0x45 then Some(Simple(0, 1, 2))
    else None
  }

  function LookupStorage(op: Byte, rules: Rules): (o: Option<Operation>)
    requires 0x50 <= op < 0x60
  {
    if op == 0x50 then Some(Simple(1, 0, 2))
    else if op == 0x51 then Some(Charging(1, 1, MemoryPlus(3), [Fixed(0, 32)], LoadMemory))
    else if op == 0x52 then Some(Charging(2, 0, MemoryPlus(3), [Fixed(0, 32)], StoreWord))
    else if op == 0x53 then Some(Charging(2, 0, MemoryPlus(3), [Fixed(0, 1)], StoreByte))
    else if op == 0x54 then Some(Charging(1, 1, Flat(rules.Table().sload), [], LoadStorage))
    else if op == 0x55 then Some(Writing(2, 0, StoreGas, [], StoreStorage))
    else if op == 0x56 then Some(Acting(1, 0, 8, Jump))
    else if op == 0x57 then Some(Acting(2, 0, 10, JumpIf))
    else if op <= 0x5a then Some(Simple(0, 1, 2))
    else if op == 0x5b then Some(Simple(0, 0, 1))
    else None
  }

  function LookupStack(op: Byte): (o: Operation)
    requires 0x60 <= op < 0xa0
  {
    if op <= 0x7f then Acting(0, 1, 3, PushData(op - 0x5f))
    else if op <= 0x8f then Acting(op - 0x7f, op - 0x7e, 3, Dup(op - 0x7f))
    else Acting(op - 0x8e, op - 0x8e, 3, Swap(op - 0x8e))
  }

  function LookupLog(op: Byte): (o: Option<Operation>)
    requires 0xa0 <= op < 0xf3
  {
    if op <= 0xa4 then Some(Writing(op - 0x9e, 0, LogGas(op - 0xa0), [Region(0, 1)], EmitLog(op - 0xa0)))
    else if op < 0xf0 then None
    else if op == 0xf0 then Some(Writing(3, 1, MemoryPlus(32000), [Region(1, 2)], Create(false)))
    else if op == 0xf1 then
      Some(Charging(7, 1, CallGas(CallKind), [Region(5, 6), Region(3, 4)], Call(CallKind)))
    else Some(Charging(7, 1, CallGas(CallCodeKind), [Region(5, 6), Region(3, 4)], Call(CallCodeKind)))
  }

  function LookupSystem(op: Byte, rules: Rules): (o: Option<Operation>)
    requires 0xf3 <= op
  {
    var byzantium := rules.byzantium || rules.constantinople;
    if op == 0xf3 then Some(Charging(2, 0, MemoryPlus(0), [Region(0, 1)], Return))
    else if op == 0xf4 && (rules.homestead || byzantium) then
      Some(Charging(6, 1, CallGas(DelegateKind), [Region(4, 5), Region(2, 3)], Call(DelegateKind)))
    else if op == 0xf5 && rules.constantinople then
      Some(Writing(4, 1, PerWord(32000, 6, 2), [Region(1, 2)], Create(true)))
    else if op == 0xfa && byzantium then
      Some(Charging(6, 1, CallGas(StaticKind), [Region(4, 5), Region(2, 3)], Call(StaticKind)))
    else if op == 0xfd && byzantium then Some(Charging(2, 0, MemoryPlus(0), [Region(0, 1)], Revert))
    else if op == 0xff then Some(Writing(1, 0, SuicideGas, [], SelfDestruct))
    else None
  }

  /* ---- What every operation satisfies ---- */

  function RegionReach(r: Region): (n: nat)
  {
    if r.Fixed? then r.offset else Larger(r.offset, r.length)
  }

  /** The stack items that a cost looks at. */
  function DynamicReach(d: Dynamic): (n: nat)
  {
    match d
    case ExpGas => 2
    case PerWord(_, _, sizeAt) => sizeAt + 1
    case LogGas(_) => 2
    case StoreGas => 2
    case CallGas(kind) => if kind.CallKind? || kind.CallCodeKind? then 3 else 2
    case SuicideGas => 1
    case _ => 0
  }

  /** Nothing looks below what the operation takes from the stack, or leaves more than 1024 items. */
  ghost predicate WellFormed(o: Operation)
  {
    o.pops <= 17 && o.pushes <= 17 && |o.memory| <= 2 && DynamicReach(o.dynamic) <= o.pops &&
    (|o.memory| > 0 ==> RegionReach(o.memory[0]) < o.pops) && (|o.memory| > 1 ==> RegionReach(o.memory[1]) < o.pops) &&
    match o.action
    case PushData(size) => o.pops == 0 && o.pushes == 1 && 1 <= size <= 32
    case Dup(n) => o.pops == n && o.pushes == n + 1 && 1 <= n <= 16
    case Swap(n) => o.pops == o.pushes == n && 2 <= n <= 17
    case Jump => o.pops == 1 && o.pushes == 0
    case JumpIf => o.pops == 2 && o.pushes == 0
    case LoadMemory => o.pops == 1 && o.pushes == 1 && o.memory == [Fixed(0, 32)]
    case HashMemory => o.pops == 2 && o.pushes == 1 && o.memory == [Region(0, 1)]
    case StoreWord => o.pops == 2 && o.pushes == 0 && o.memory == [Fixed(0, 32)]
    case StoreByte => o.pops == 2 && o.pushes == 0 && o.memory == [Fixed(0, 1)]
    case Copy(offset, length) => o.pushes == 0 && o.memory == [Region(offset, length)]
    case CopyReturnData => o.pops == 3 && o.pushes == 0 && o.memory == [Region(0, 2)]
    case LoadStorage => o.pops == 1 && o.pushes == 1
    case StoreStorage => o.pops == 2 && o.pushes == 0 && o.dynamic.StoreGas? && o.writes
    case EmitLog(topics) => o.pops == topics + 2 && o.pushes == 0 && o.memory == [Region(0, 1)] && o.writes
    case Create(salted) => o.pops == (if salted then 4 else 3) && o.pushes == 1 && o.memory == [Region(1, 2)] && o.writes
    case Call(kind) =>
      o.pushes == 1 && o.dynamic == CallGas(kind) &&
      (if kind.CallKind? || kind.CallCodeKind?
       then o.pops == 7 && o.memory == [Region(5, 6), Region(3, 4)]
       else o.pops == 6 && o.memory == [Region(4, 5), Region(2, 3)])
    case Return => o.pops == 2 && o.pushes == 0 && o.memory == [Region(0, 1)]
    case Revert => o.pops == 2 && o.pushes == 0 && o.memory == [Region(0, 1)]
    case SelfDestruct => o.pops == 1 && o.pushes == 0 && o.writes
    case _ => true
  }

  /** The least that an operation costs. */
  function LeastCost(o: Operation): (gas: nat)
  {
    o.constantGas +
    match o.dynamic
    case NoDynamic => 0
    case Flat(amount) => amount
    case ExpGas => 10
    case MemoryPlus(amount) => amount
    case PerWord(amount, _, _) => amount
    case LogGas(_) => 375
    case StoreGas => 200
    case CallGas(_) => 40
    case SuicideGas => 0
  }

  /** Well-formed, and not free unless it ends the contract; what an action needs is charged for. */
  ghost predicate Chargeable(o: Operation)
  {
    WellFormed(o) && (o.Halts() || o.action.Revert? || LeastCost(o) >= 1) &&
    (|o.memory| > 0 ==> o.dynamic.MemoryPlus? || o.dynamic.PerWord? || o.dynamic.LogGas? || o.dynamic.CallGas?) &&
    (o.dynamic.StoreGas? ==> o.action.StoreStorage?) && (o.dynamic.SuicideGas? ==> o.action.SelfDestruct?) &&
    (o.dynamic.CallGas? ==> o.action.Call?)
  }

  lemma ArithmeticCharges(op: Byte, rules: Rules)
    requires op < 0x20 && LookupArithmetic(op, rules).Some?
    ensures Chargeable(LookupArithmetic(op, rules).value)
  {
  }

  lemma ContextCharges(op: Byte, rules: Rules)
    requires 0x20 <= op < 0x3b && LookupContext(op, rules).Some?
    ensures Chargeable(LookupContext(op, rules).value)
  {
  }

  lemma ExternalCharges(op: Byte, rules: Rules)
    requires 0x3b <= op < 0x50 && LookupExternal(op, rules).Some?
    ensures Chargeable(LookupExternal(op, rules).value)
  {
    var t := rules.Table();
    assert t.extcodeSize >= 1 && t.extcodeCopy >= 1 && (rules.constantinople ==> t.extcodeHash >= 1);
    hide rules.Table;
  }

  lemma StorageCharges(op: Byte, rules: Rules)
    requires 0x50 <= op < 0x60 && LookupStorage(op, rules).Some?
    ensures Chargeable(LookupStorage(op, rules).value)
  {
  }

  lemma StackCharges(op: Byte)
    requires 0x60 <= op < 0xa0
    ensures Chargeable(LookupStack(op))
  {
  }

  lemma LogCharges(op: Byte)
    requires 0xa0 <= op < 0xf3 && LookupLog(op).Some?
    ensures Chargeable(LookupLog(op).value)
  {
  }

  lemma SystemCharges(op: Byte, rules: Rules)
    requires 0xf3 <= op && LookupSystem(op, rules).Some?
    ensures Chargeable(LookupSystem(op, rules).value)
  {
  }

  /** Every operation is well-formed, and one that lets the contract go on costs something. */
  lemma OperationsCharge(op: Byte, rules: Rules)
    requires Lookup(op, rules).Some?
    ensures Chargeable(Lookup(op, rules).value)
  {
    hide Chargeable, LookupArithmetic, LookupContext, LookupExternal, LookupStorage, LookupStack, LookupLog, LookupSystem;
    if op < 0x20 {
      ArithmeticCharges(op, rules);
    } else if op < 0x3b {
      ContextCharges(op, rules);
    } else if op < 0x50 {
      ExternalCharges(op, rules);
    } else if op < 0x60 {
      StorageCharges(op, rules);
    } else if op < 0xa0 {
      StackCharges(op);
    } else if op < 0xf3 {
      LogCharges(op);
    } else {
      SystemCharges(op, rules);
    }
  }

  /** The width of the instruction in the code is what the program counter advances by. */
  lemma PushWidth(op: Byte, rules: Rules)
    requires Lookup(op, rules).Some?
    ensures var o := Lookup(op, rules).value;
            (o.action.PushData? <==> 0x60 <= op <= 0x7f) &&
            (o.action.PushData? ==> o.action.size == op - 0x5f)
  {
  }
}
