/**
 The interpreter's stack as a sequence of values: what each instruction takes from it,
 shows to its surroundings and leaves on it, over a whole tree of calls.
 */
module EvmWords {
  import opened Bytes
  import opened EvmOps
  import opened EvmArith

  /**
   An executed instruction with what its surroundings contribute: the word it reads from
   memory, state or context; whether a jump is valid; and for calls the instructions of
   the callee, if it runs any, and whether return data is copied back.
   */
  datatype Instr =
    | Plain(op: Byte, answer: Word, ok: bool)
    | Enter(op: Byte, answer: Word, body: seq<Instr>, copies: bool)

  datatype Env = Env(rules: Rules, number: nat)

  datatype Effect = Effect(vals: seq<Word>, seen: seq<int>, stop: bool)

  predicate IsCall(op: Byte)
  {
    op == 0xf0 || op == 0xf1 || op == 0xf2 || op == 0xf4 || op == 0xf5 || op == 0xfa
  }

  predicate Computes(op: Byte)
  {
    0x01 <= op <= 0x0b || 0x10 <= op <= 0x1d
  }

  function Operands(op: Byte): (n: nat)
    ensures 1 <= n <= 3
  {
    if op == 0x08 || op == 0x09 then 3 else if op == 0x15 || op == 0x19 then 1 else 2
  }

  ghost function Computed(op: Byte, vals: seq<Word>): (vals': seq<Word>)
    requires |vals| >= Operands(op)
  {
    var n, p := |vals|, Operands(op);
    Under(vals, p) + [Result(op, vals[n - 1], if p >= 2 then vals[n - 2] else 0, if p >= 3 then vals[n - 3] else 0)]
  }

  /** The `n` topmost values, the top first. */
  function Tops(vals: seq<int>, n: nat): (ts: seq<int>)
    requires n <= |vals|
    ensures |ts| == n && forall i :: 0 <= i < n ==> ts[i] == vals[|vals| - 1 - i]
  {
    if n == 0 then [] else [vals[|vals| - 1]] + Tops(vals[..|vals| - 1], n - 1)
  }

  function Under(vals: seq<Word>, n: nat): (rest: seq<Word>)
    requires n <= |vals|
  {
    vals[..|vals| - n]
  }

  lemma NothingTaken(vals: seq<Word>)
    ensures Tops(vals, 0) == [] && Under(vals, 0) == vals
    ensures forall n: nat :: n <= |vals| ==> Under(vals, n) + [] == Under(vals, n)
  {
  }

  /** Whether the interpreter executes the instruction with this many items on the stack. */
  predicate Admitted(env: Env, op: Byte, height: nat)
  {
    var o := Lookup(op, env.rules);
    o.Some? && o.value.pops <= height && height + o.value.pushes <= STACK_LIMIT + o.value.pops
  }

  /** Whether a block hash is one of the last 256. */
  predicate Recent(env: Env, num: Word)
  {
    env.number - 257 < num < env.number
  }

  /** An instruction other than a call. */
  ghost function PlainEffect(env: Env, op: Byte, answer: Word, ok: bool, value: Word, vals: seq<Word>): (e: Effect)
    requires Admitted(env, op, |vals|) && !IsCall(op)
  {
    var o := Lookup(op, env.rules).value;
    var n := |vals|;
    if Computes(op) then Effect(Computed(op, vals), [], false)
    else if o.action.Dup? then Effect(vals + [vals[n - o.action.n]], [], false)
    else if o.action.Swap? then Effect(vals[n - o.action.n := vals[n - 1]][n - 1 := vals[n - o.action.n]], [], false)
    else if op == 0x50 then Effect(Under(vals, 1), [], false)
    else if op == 0x34 then Effect(vals + [value], [], false)
    else if op == 0x40 then Effect(Under(vals, 1) + [if Recent(env, vals[n - 1]) then answer else 0], Tops(vals, 1), false)
    else
      var bad := (op == 0x3e && vals[n - 2] + vals[n - 3] > answer) || (op == 0x56 && !ok) ||
                 (op == 0x57 && vals[n - 2] != 0 && !ok);
      Effect(Under(vals, o.pops) + (if o.pushes == 1 then [answer] else []), Tops(vals, o.pops),
             bad || o.Halts() || o.action.Revert?)
  }

  lemma PlainComputes(env: Env, op: Byte, answer: Word, ok: bool, value: Word, vals: seq<Word>)
    requires Admitted(env, op, |vals|) && !IsCall(op) && Computes(op)
    ensures |vals| >= Operands(op)
    ensures PlainEffect(env, op, answer, ok, value, vals) == Effect(Computed(op, vals), [], false)
  {
  }

  /** How many words a call shows before the callee runs: all it takes but the gas and the place for the return data. */
  function ShownFirst(op: Byte): (n: nat)
    requires IsCall(op)
  {
    if op == 0xf0 then 3 else if op == 0xf5 then 4 else if op == 0xf1 || op == 0xf2 then 4 else 3
  }

  function HasGas(op: Byte): (n: nat)
    requires IsCall(op)
  {
    if op == 0xf0 || op == 0xf5 then 0 else 1
  }

  /** The value that the callee sees. */
  function Handed(op: Byte, value: Word, vals: seq<Word>): (w: Word)
    requires IsCall(op) && |vals| >= 3
  {
    if op == 0xf0 || op == 0xf5 then vals[|vals| - 1]
    else if op == 0xf1 || op == 0xf2 then vals[|vals| - 3]
    else if op == 0xf4 then value
    else 0
  }

  predicate Executes(env: Env, i: Instr, height: nat)
  {
    Admitted(env, i.op, height) && (IsCall(i.op) <==> i.Enter?)
  }

  /** Everything that the surroundings get to see while a frame runs, its callees included. */
  ghost function Run(env: Env, trace: seq<Instr>, value: Word, vals: seq<Word>): (log: seq<seq<int>>)
    decreases trace
  {
    if trace == [] || !Executes(env, trace[0], |vals|) then []
    else
      Shown(env, trace[0], value, vals) +
      if Stops(env, trace[0], value, vals) then [] else Run(env, trace[1..], value, Next(env, trace[0], value, vals))
  }

  ghost function Shown(env: Env, i: Instr, value: Word, vals: seq<Word>): (log: seq<seq<int>>)
    requires Executes(env, i, |vals|)
    decreases i
  {
    if i.Plain? then [PlainEffect(env, i.op, i.answer, i.ok, value, vals).seen]
    else
      CallPops(env, i.op);
      [Before(i, vals)] + Run(env, i.body, Handed(i.op, value, vals), []) + [After(i, vals)]
  }

  ghost function Next(env: Env, i: Instr, value: Word, vals: seq<Word>): (vals': seq<Word>)
    requires Executes(env, i, |vals|)
  {
    if i.Plain? then PlainEffect(env, i.op, i.answer, i.ok, value, vals).vals
    else
      CallPops(env, i.op);
      Under(vals, CallOperands(i.op)) + [i.answer]
  }

  ghost predicate Stops(env: Env, i: Instr, value: Word, vals: seq<Word>)
    requires Executes(env, i, |vals|)
  {
    i.Plain? && PlainEffect(env, i.op, i.answer, i.ok, value, vals).stop
  }

  ghost function Before(i: Instr, vals: seq<Word>): (seen: seq<int>)
    requires i.Enter? && IsCall(i.op) && |vals| >= HasGas(i.op) + ShownFirst(i.op)
  {
    Tops(vals, HasGas(i.op) + ShownFirst(i.op))[HasGas(i.op)..]
  }

  /** The place for the return data is read after the callee has run. */
  ghost function After(i: Instr, vals: seq<Word>): (seen: seq<int>)
    requires i.Enter? && IsCall(i.op) && |vals| >= CallOperands(i.op)
  {
    if i.copies && HasGas(i.op) == 1 then Tops(vals, CallOperands(i.op))[1 + ShownFirst(i.op)..] else []
  }

  function CallOperands(op: Byte): (n: nat)
    requires IsCall(op)
    ensures n >= HasGas(op) + ShownFirst(op) >= 3
  {
    ShownFirst(op) + 3 * HasGas(op)
  }

  lemma CallPops(env: Env, op: Byte)
    requires IsCall(op) && Lookup(op, env.rules).Some?
    ensures Lookup(op, env.rules).value.pops == CallOperands(op) && Lookup(op, env.rules).value.pushes == 1
  {
  }

  /** The words read before and after the callee runs are the operands. */
  lemma CallSeenBefore(i: Instr, vals: seq<Word>, seen: seq<int>)
    requires i.Enter? && IsCall(i.op) && |vals| >= CallOperands(i.op) && |seen| == ShownFirst(i.op)
    requires forall k :: 0 <= k < |seen| ==> seen[k] == vals[|vals| - 1 - HasGas(i.op) - k]
    ensures seen == Before(i, vals)
  {
    hide Tops;
  }

  lemma CallSeenAfter(i: Instr, vals: seq<Word>, seen: seq<int>)
    requires i.Enter? && IsCall(i.op) && |vals| >= CallOperands(i.op)
    requires if i.copies && HasGas(i.op) == 1
             then |seen| == 2 && forall k :: 0 <= k < 2 ==> seen[k] == vals[|vals| - 2 - ShownFirst(i.op) - k]
             else seen == []
    ensures seen == After(i, vals)
  {
    hide Tops;
  }

  /** One instruction of a run. */
  lemma RunStep(env: Env, trace: seq<Instr>, k: nat, value: Word, vals: seq<Word>)
    requires k < |trace|
    ensures Run(env, trace[k..], value, vals) ==
            if !Executes(env, trace[k], |vals|) then []
            else
              Shown(env, trace[k], value, vals) +
              if Stops(env, trace[k], value, vals) then [] else Run(env, trace[k + 1..], value, Next(env, trace[k], value, vals))
  {
    var t := trace[k..];
    assert t[0] == trace[k] && t[1..] == trace[k + 1..];
    hide Shown, Stops, Next, Executes;
  }

  lemma RunEnd(env: Env, trace: seq<Instr>, value: Word, vals: seq<Word>)
    ensures Run(env, trace[|trace|..], value, vals) == []
  {
  }
}
