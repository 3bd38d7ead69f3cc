/**
 The interpreter's words as it keeps them: mutable big integers that move between the
 stacks of nested frames, the hands of an instruction and a pool from which they are
 taken again.  No big integer is ever in two places, so the values behave as if every
 word were a value of its own.
 */
module EvmPool {
  import opened Bytes
  import opened EvmOps
  import opened EvmBits
  import opened EvmArith
  import opened EvmWords

  class BigInt {
    var value: int

    constructor (value: int)
      ensures this.value == value
    {
      this.value := value;
    }
  }

  class Stack {
    var data: seq<BigInt>
    ghost var vals: seq<Word>

    constructor ()
      ensures data == [] && vals == []
    {
      data, vals := [], [];
    }
  }

  const POOL_LIMIT := 256
  const CHECK_VALUE := -42

  ghost predicate Distinct(ws: seq<BigInt>)
  {
    forall i, j :: 0 <= i < j < |ws| ==> ws[i] != ws[j]
  }

  ghost function Among(ws: seq<BigInt>): (s: set<BigInt>)
  {
    set w | w in ws
  }

  /** Pool, stack and whatever else is in use share nothing. */
  ghost predicate Apart(pool: seq<BigInt>, data: seq<BigInt>, held: set<BigInt>)
  {
    Distinct(pool) && Distinct(data) && Among(pool) !! Among(data) !! held
  }

  ghost predicate Holds(data: seq<BigInt>, vals: seq<Word>)
    reads data
  {
    |data| == |vals| && forall i :: 0 <= i < |data| ==> data[i].value == vals[i]
  }

  /** What the pool's own check looks for. */
  ghost predicate Unused(pool: seq<BigInt>)
    reads pool
  {
    forall i :: 0 <= i < |pool| ==> pool[i].value == CHECK_VALUE
  }

  class Interpreter {
    const env: Env
    const verifyPool: bool
    var pool: seq<BigInt>
    /** The words in use outside the pool and the current stack: outer stacks, operands of calls, values of contracts. */
    ghost var held: set<BigInt>

    ghost predicate Ready(stack: Stack)
      reads this, pool, stack, stack.data
    {
      Apart(pool, stack.data, held) && Holds(stack.data, stack.vals) && (verifyPool ==> Unused(pool))
    }

    constructor (env: Env, verifyPool: bool)
      ensures this.env == env && this.verifyPool == verifyPool && pool == [] && held == {}
    {
      this.env, this.verifyPool, pool, held := env, verifyPool, [], {};
    }

    /* ---- Moving words ---- */

    method Pop(stack: Stack) returns (x: BigInt)
      requires Ready(stack) && |stack.vals| > 0
      modifies this`held, stack
      ensures Ready(stack) && held == old(held) + {x}
      ensures old(stack.data) == stack.data + [x] && old(stack.vals) == stack.vals + [x.value]
      ensures x !in pool && x !in stack.data && x !in old(held)
      ensures Among(old(stack.data)) == Among(stack.data) + {x}
      ensures |stack.data| == |stack.vals| && 0 <= x.value < WORD && x.value == old(stack.vals)[|stack.vals|]
    {
      var n := |stack.data| - 1;
      x := stack.data[n];
      PopApart(pool, stack.data, held);
      stack.data := stack.data[..n];
      stack.vals := stack.vals[..n];
      held := held + {x};
    }

    method Push(stack: Stack, x: BigInt)
      requires Ready(stack) && x in held && 0 <= x.value < WORD
      modifies this`held, stack
      ensures Ready(stack) && held == old(held) - {x}
      ensures stack.data == old(stack.data) + [x] && stack.vals == old(stack.vals) + [x.value]
      ensures Among(stack.data) == Among(old(stack.data)) + {x}
    {
      PushApart(pool, stack.data, held, x);
      stack.data := stack.data + [x];
      stack.vals := stack.vals + [x.value];
      held := held - {x};
    }

    /** `get`: a word from the pool, or a new one. */
    method Get(stack: Stack) returns (x: BigInt)
      requires Ready(stack)
      modifies this`pool, this`held
      ensures Ready(stack) && held == old(held) + {x} && x !in old(held) && x !in stack.data && x !in pool
      ensures if old(pool) == [] then fresh(x) && pool == [] else old(pool) == pool + [x]
      ensures fresh(x) || x in Among(old(pool))
      ensures Among(pool) <= Among(old(pool))
    {
      if |pool| > 0 {
        x := pool[|pool| - 1];
        GetApart(pool, stack.data, held);
        pool := pool[..|pool| - 1];
      } else {
        x := new BigInt(0);
      }
      held := held + {x};
    }

    /** `put`: back to the pool, unless that is full. */
    method Put(stack: Stack, ws: seq<BigInt>)
      requires Ready(stack) && Distinct(ws) && Among(ws) <= held
      modifies this`pool, this`held, Among(ws)
      ensures Ready(stack) && held == old(held) - Among(ws)
      ensures pool == if |old(pool)| > POOL_LIMIT then old(pool) else old(pool) + ws
      ensures Among(pool) <= Among(old(pool)) + Among(ws)
    {
      if |pool| > POOL_LIMIT {
        held := held - Among(ws);
        return;
      }
      PutApart(pool, stack.data, held, ws);
      for i := 0 to |ws|
        invariant Holds(stack.data, stack.vals) && pool == old(pool) && held == old(held)
        invariant verifyPool ==> Unused(pool) && Unused(ws[..i])
        modifies Among(ws)
      {
        assert ws[i] in ws && ws[..i + 1] == ws[..i] + [ws[i]];
        if verifyPool {
          ws[i].value := CHECK_VALUE;
        }
      }
      AmongCat(pool, ws);
      pool := pool + ws;
      held := held - Among(ws);
    }

    /** The words of the pool and of the stack. */
    ghost function Mine(stack: Stack): (s: set<BigInt>)
      reads this, stack
    {
      Among(pool) + Among(stack.data)
    }

    /** A new value for the word on top, in place. */
    method SetTop(stack: Stack, v: Word)
      requires Ready(stack) && |stack.vals| > 0
      modifies stack`vals, Among(stack.data)
      ensures Ready(stack) && stack.vals == Under(old(stack.vals), 1) + [v]
    {
      PopApart(pool, stack.data, held);
      assert stack.data == stack.data[..|stack.data| - 1] + [stack.data[|stack.data| - 1]];
      stack.data[|stack.data| - 1].value := v;
      stack.vals := stack.vals[..|stack.vals| - 1] + [v];
    }

    /** A new value for a word that an instruction has in hand. */
    method Assign(stack: Stack, x: BigInt, v: int)
      requires Ready(stack) && x in held
      modifies x
      ensures Ready(stack) && x.value == v
    {
      HeldApart(pool, stack.data, held, x);
      x.value := v;
    }

    /** `S256`: the word itself, or a new one if it is negative. */
    method S256(stack: Stack, x: BigInt) returns (z: BigInt)
      requires Ready(stack) && x in held && 0 <= x.value < WORD
      modifies this`held
      ensures Ready(stack) && z in held && (z == x || fresh(z)) && z.value == Signed(x.value) && -HALF <= z.value < HALF
      ensures held == old(held) + {z}
    {
      if x.value < HALF {
        return x;
      }
      z := new BigInt(x.value - WORD);
      held := held + {z};
    }

    /** The instruction is over: whatever it still has in hand is dropped. */
    ghost method Drop(stack: Stack, before: set<BigInt>)
      requires Ready(stack) && before <= held
      modifies this`held
      ensures Ready(stack) && held == before
    {
      held := before;
    }

    function Top(stack: Stack): (v: int)
      requires Ready(stack) && |stack.vals| > 0
      reads this, pool, stack, stack.data
      ensures |stack.vals| == |stack.data| && v == stack.vals[|stack.vals| - 1]
    {
      stack.data[|stack.data| - 1].value
    }

    /** Several words at once, the top first. */
    method PopMany(stack: Stack, n: nat) returns (ws: seq<BigInt>)
      requires Ready(stack) && n <= |stack.vals|
      modifies this`held, stack
      ensures Ready(stack) && |ws| == n && Distinct(ws)
      ensures held == old(held) + Among(ws) && Among(ws) !! old(held)
      ensures stack.data == old(stack.data)[..|old(stack.data)| - n] && stack.vals == Under(old(stack.vals), n)
      ensures Among(old(stack.data)) == Among(stack.data) + Among(ws)
      ensures forall i :: 0 <= i < n ==> ws[i].value == old(stack.vals)[|old(stack.vals)| - 1 - i]
    {
      ws := [];
      for i := 0 to n
        invariant Ready(stack) && |ws| == i && Distinct(ws)
        invariant held == old(held) + Among(ws) && Among(ws) !! old(held)
        invariant stack.data == old(stack.data)[..|old(stack.data)| - i] && stack.vals == Under(old(stack.vals), i)
        invariant Among(old(stack.data)) == Among(stack.data) + Among(ws)
        invariant forall j :: 0 <= j < i ==> ws[j].value == old(stack.vals)[|old(stack.vals)| - 1 - j]
      {
        var x := Pop(stack);
        AmongCat(ws, [x]);
        DistinctSnoc(ws, x);
        ws := ws + [x];
      }
    }

    /** Ends an instruction whose result is accumulated into the word on top. */
    method Fold(stack: Stack, x: BigInt, v: Word)
      requires Ready(stack) && x in held && |stack.vals| > 0
      modifies this`pool, this`held, stack`vals, Among(stack.data), x
      ensures Ready(stack) && held == old(held) - {x} && stack.vals == Under(old(stack.vals), 1) + [v]
      ensures Among(pool) <= Among(old(pool)) + {x}
    {
      SetTop(stack, v);
      OneApart(x);
      Put(stack, [x]);
    }

    /** Ends an instruction that pushes one of its operands again, with the result, and is done with the others. */
    method Repush(stack: Stack, x: BigInt, v: Word, ys: seq<BigInt>)
      requires Ready(stack) && x in held && Distinct(ys) && Among(ys) <= held && x !in ys
      modifies this`pool, this`held, stack, x, Among(ys)
      ensures Ready(stack) && held == old(held) - {x} - Among(ys)
      ensures stack.vals == old(stack.vals) + [v] && Among(stack.data) == Among(old(stack.data)) + {x}
      ensures Among(pool) <= Among(old(pool)) + Among(ys)
    {
      Assign(stack, x, v);
      Push(stack, x);
      assert x !in Among(ys);
      Put(stack, ys);
    }

    /* ---- Arithmetic ---- */

    method OpAdd(stack: Stack)
      requires Ready(stack) && |stack.vals| >= 2
      modifies this, stack, Mine(stack)
      ensures Ready(stack) && held == old(held) && fresh(Mine(stack) - old(Mine(stack)))
      ensures stack.vals == Computed(0x01, old(stack.vals))
    {
      hide Interpreter.Ready, Distinct, Among, LogicResult, BitAnd, Quotient, Remainder;
      var x := Pop(stack);
      Fold(stack, x, U256(x.value + Top(stack)));
    }

    method OpMul(stack: Stack)
      requires Ready(stack) && |stack.vals| >= 2
      modifies this, stack, Mine(stack)
      ensures Ready(stack) && held == old(held) && fresh(Mine(stack) - old(Mine(stack)))
      ensures stack.vals == Computed(0x02, old(stack.vals))
    {
      hide Interpreter.Ready, Distinct, Among, LogicResult, BitAnd, Quotient, Remainder;
      var x := Pop(stack);
      var y := Pop(stack);
      OneApart(y);
      Repush(stack, x, U256(x.value * y.value), [y]);
    }

    method OpSub(stack: Stack)
      requires Ready(stack) && |stack.vals| >= 2
      modifies this, stack, Mine(stack)
      ensures Ready(stack) && held == old(held) && fresh(Mine(stack) - old(Mine(stack)))
      ensures stack.vals == Computed(0x03, old(stack.vals))
    {
      hide Interpreter.Ready, Distinct, Among, LogicResult, BitAnd, Quotient, Remainder;
      var x := Pop(stack);
      Fold(stack, x, U256(x.value - Top(stack)));
    }

    method OpDiv(stack: Stack)
      requires Ready(stack) && |stack.vals| >= 2
      modifies this, stack, Mine(stack)
      ensures Ready(stack) && held == old(held) && fresh(Mine(stack) - old(Mine(stack)))
      ensures stack.vals == Computed(0x04, old(stack.vals))
    {
      hide Interpreter.Ready, Distinct, Among, LogicResult, BitAnd, Quotient, Remainder;
      var x := Pop(stack);
      Fold(stack, x, if Top(stack) != 0 then U256(x.value / Top(stack)) else 0);
    }

    method OpMod(stack: Stack)
      requires Ready(stack) && |stack.vals| >= 2
      modifies this, stack, Mine(stack)
      ensures Ready(stack) && held == old(held) && fresh(Mine(stack) - old(Mine(stack)))
      ensures stack.vals == Computed(0x06, old(stack.vals))
    {
      hide Interpreter.Ready, Distinct, Among, LogicResult, BitAnd, Quotient, Remainder;
      var x := Pop(stack);
      var y := Pop(stack);
      OneApart(y);
      Repush(stack, x, if y.value == 0 then 0 else U256(x.value % y.value), [y]);
    }

    method OpAddmod(stack: Stack)
      requires Ready(stack) && |stack.vals| >= 3
      modifies this, stack, Mine(stack)
      ensures Ready(stack) && held == old(held) && fresh(Mine(stack) - old(Mine(stack)))
      ensures stack.vals == Computed(0x08, old(stack.vals))
    {
      hide Interpreter.Ready, Distinct, Among, LogicResult, BitAnd, Quotient, Remainder;
      ghost var before := held;
      var ws := PopMany(stack, 3);
      RestApart(ws);
      Repush(stack, ws[0], if ws[2].value > 0 then U256((ws[0].value + ws[1].value) % ws[2].value) else 0, ws[1..]);
      Drop(stack, before);
    }

    method OpMulmod(stack: Stack)
      requires Ready(stack) && |stack.vals| >= 3
      modifies this, stack, Mine(stack)
      ensures Ready(stack) && held == old(held) && fresh(Mine(stack) - old(Mine(stack)))
      ensures stack.vals == Computed(0x09, old(stack.vals))
    {
      hide Interpreter.Ready, Distinct, Among, LogicResult, BitAnd, Quotient, Remainder;
      ghost var before := held;
      var ws := PopMany(stack, 3);
      RestApart(ws);
      Repush(stack, ws[0], if ws[2].value > 0 then U256(ws[0].value * ws[1].value % ws[2].value) else 0, ws[1..]);
      Drop(stack, before);
    }

    /** Two operands as signed numbers, in words that may be new, and a word for the result. */
    method SignedOperands(stack: Stack) returns (x: BigInt, y: BigInt, res: BigInt)
      requires Ready(stack) && |stack.vals| >= 2
      modifies this`pool, this`held, stack
      ensures Ready(stack) && old(held) <= held && {x, y, res} <= held && x != y && x != res && y != res
      ensures {x, y, res} !! old(held)
      ensures var n := |old(stack.vals)|;
              stack.vals == Under(old(stack.vals), 2) &&
              x.value == Signed(old(stack.vals)[n - 1]) && y.value == Signed(old(stack.vals)[n - 2])
      ensures Mine(stack) <= old(Mine(stack)) && fresh({x, y, res} - old(Mine(stack)))
    {
      hide Interpreter.Ready, Distinct, Among, Signed;
      x := Pop(stack);
      x := S256(stack, x);
      y := Pop(stack);
      y := S256(stack, y);
      res := Get(stack);
    }

    /** The operands are made positive in place before they go back to the pool. */
    method SignedDone(stack: Stack, x: BigInt, y: BigInt, res: BigInt, v: Word,
                      ghost before: set<BigInt>, ghost mine: set<BigInt>)
      requires Ready(stack) && {x, y, res} <= held && x != y && x != res && y != res
      requires before <= held && {x, y, res} !! before && Mine(stack) <= mine
      modifies this`pool, this`held, stack, x, y, res
      ensures Ready(stack) && held == before && stack.vals == old(stack.vals) + [v]
      ensures Mine(stack) <= mine + {x, y, res}
    {
      hide Interpreter.Ready, Distinct, Among;
      Assign(stack, x, Abs(x.value));
      Assign(stack, y, Abs(y.value));
      PairApart(x, y);
      Repush(stack, res, v, [x, y]);
      Drop(stack, before);
    }

    /** The operands are made positive in place before they go back to the pool. */
    method OpSdiv(stack: Stack)
      requires Ready(stack) && |stack.vals| >= 2
      modifies this, stack, Mine(stack)
      ensures Ready(stack) && held == old(held) && fresh(Mine(stack) - old(Mine(stack)))
      ensures stack.vals == Computed(0x05, old(stack.vals))
    {
      hide Interpreter.Ready, Distinct, Among, LogicResult, BitAnd, Quotient, Remainder;
      ghost var before, mine := held, Mine(stack);
      var x, y, res := SignedOperands(stack);
      var v := SignedDivision(x.value, y.value);
      SignedDone(stack, x, y, res, v, before, mine);
    }

    method OpSmod(stack: Stack)
      requires Ready(stack) && |stack.vals| >= 2
      modifies this, stack, Mine(stack)
      ensures Ready(stack) && held == old(held) && fresh(Mine(stack) - old(Mine(stack)))
      ensures stack.vals == Computed(0x07, old(stack.vals))
    {
      hide Interpreter.Ready, Distinct, Among, LogicResult, BitAnd, Quotient, Remainder;
      ghost var before, mine := held, Mine(stack);
      var x, y, res := SignedOperands(stack);
      var v := SignedRemainder(x.value, y.value);
      SignedDone(stack, x, y, res, v, before, mine);
    }

    /** The steps of exponentiation by squaring for one 64-bit word of the exponent. */
    method ExpWord(stack: Stack, base: BigInt, result: BigInt, word: nat, ghost rest: nat)
      requires Ready(stack) && {base, result} <= held && base != result && word < WORD64
      requires 0 <= base.value < WORD && 0 <= result.value < WORD
      modifies base, result
      ensures Ready(stack) && 0 <= base.value < WORD && 0 <= result.value < WORD
      ensures Powered(result.value, base.value, rest) ==
              old(Powered(result.value, base.value, Exponent(word, 64, rest)))
    {
      hide Interpreter.Ready, Powered, Exponent, BitAnd, Wrap, Pow2;
      var w := word;
      WordIsPow2();
      for i := 0 to 64
        invariant Ready(stack) && 0 <= base.value < WORD && 0 <= result.value < WORD && 0 <= w < Pow2(64 - i)
        invariant Powered(result.value, base.value, Exponent(w, 64 - i, rest)) ==
                  old(Powered(result.value, base.value, Exponent(word, 64, rest)))
        modifies base, result
      {
        ExponentHalf(w, 64 - i, rest);
        SquareStep(result.value, base.value, Exponent(w / 2, 63 - i, rest), w % 2);
        if w % 2 == 1 {
          Assign(stack, result, U256(result.value * base.value));
        }
        Assign(stack, base, U256(base.value * base.value));
        w := w / 2;
      }
      ExponentEnd(w, rest);
    }

    /** `math.Exp`: exponentiation by squaring, over all bits of the exponent's 64-bit words; it leaves `base` changed. */
    method Exp(stack: Stack, base: BigInt, exponent: BigInt) returns (result: BigInt)
      requires Ready(stack) && {base, exponent} <= held && base != exponent
      requires 0 <= base.value < WORD && 0 <= exponent.value
      modifies this`held, base
      ensures Ready(stack) && fresh(result) && held == old(held) + {result} && 0 <= result.value < WORD
      ensures result.value == Wrap(Pow(old(base.value), exponent.value))
    {
      hide Powered, BitAnd, Wrap, Pow, Joined, Exponent, Limbs;
      result := new BigInt(1);
      held := held + {result};
      PoweredStart(base.value, exponent.value);
      var words := Limbs(exponent.value);
      for k := 0 to |words|
        invariant Ready(stack) && held == old(held) + {result} && exponent.value == old(exponent.value)
        invariant 0 <= base.value < WORD && 0 <= result.value < WORD
        invariant Powered(result.value, base.value, Joined(words[k..])) == Wrap(Pow(old(base.value), exponent.value))
        modifies base, result
      {
        JoinedHead(words, k);
        ExpWord(stack, base, result, words[k], Joined(words[k + 1..]));
      }
      PoweredEnd(result.value, base.value, words);
    }

    method OpNot(stack: Stack)
      requires Ready(stack) && |stack.vals| >= 1
      modifies this, stack, Mine(stack)
      ensures Ready(stack) && held == old(held) && fresh(Mine(stack) - old(Mine(stack)))
      ensures stack.vals == Computed(0x19, old(stack.vals))
    {
      hide Interpreter.Ready, Distinct, Among, BitAnd, BitOr, BitXor, Pow2, Signed, SignedLow, Pow;
      SetTop(stack, U256(BitNot(Top(stack))));
    }

    method OpLt(stack: Stack)
      requires Ready(stack) && |stack.vals| >= 2
      modifies this, stack, Mine(stack)
      ensures Ready(stack) && held == old(held) && fresh(Mine(stack) - old(Mine(stack)))
      ensures stack.vals == Computed(0x10, old(stack.vals))
    {
      hide Interpreter.Ready, Distinct, Among, BitAnd, BitOr, BitXor, Pow2, Signed, SignedLow, Pow;
      var x := Pop(stack);
      Fold(stack, x, if x.value < Top(stack) then 1 else 0);
    }

    method OpGt(stack: Stack)
      requires Ready(stack) && |stack.vals| >= 2
      modifies this, stack, Mine(stack)
      ensures Ready(stack) && held == old(held) && fresh(Mine(stack) - old(Mine(stack)))
      ensures stack.vals == Computed(0x11, old(stack.vals))
    {
      hide Interpreter.Ready, Distinct, Among, BitAnd, BitOr, BitXor, Pow2, Signed, SignedLow, Pow;
      var x := Pop(stack);
      Fold(stack, x, if x.value > Top(stack) then 1 else 0);
    }

    method OpSlt(stack: Stack)
      requires Ready(stack) && |stack.vals| >= 2
      modifies this, stack, Mine(stack)
      ensures Ready(stack) && held == old(held) && fresh(Mine(stack) - old(Mine(stack)))
      ensures stack.vals == Computed(0x12, old(stack.vals))
    {
      hide Interpreter.Ready, Distinct, Among, BitAnd, BitOr, BitXor, Pow2, SignedLow, Pow;
      var x := Pop(stack);
      var y := Top(stack);
      var v: Word :=
        if x.value >= HALF && y < HALF then 1
        else if x.value < HALF && y >= HALF then 0
        else if x.value < y then 1 else 0;
      Fold(stack, x, v);
    }

    method OpSgt(stack: Stack)
      requires Ready(stack) && |stack.vals| >= 2
      modifies this, stack, Mine(stack)
      ensures Ready(stack) && held == old(held) && fresh(Mine(stack) - old(Mine(stack)))
      ensures stack.vals == Computed(0x13, old(stack.vals))
    {
      hide Interpreter.Ready, Distinct, Among, BitAnd, BitOr, BitXor, Pow2, SignedLow, Pow;
      var x := Pop(stack);
      var y := Top(stack);
      var v: Word :=
        if x.value >= HALF && y < HALF then 0
        else if x.value < HALF && y >= HALF then 1
        else if x.value > y then 1 else 0;
      Fold(stack, x, v);
    }

    method OpEq(stack: Stack)
      requires Ready(stack) && |stack.vals| >= 2
      modifies this, stack, Mine(stack)
      ensures Ready(stack) && held == old(held) && fresh(Mine(stack) - old(Mine(stack)))
      ensures stack.vals == Computed(0x14, old(stack.vals))
    {
      hide Interpreter.Ready, Distinct, Among, BitAnd, BitOr, BitXor, Pow2, Signed, SignedLow, Pow;
      var x := Pop(stack);
      Fold(stack, x, if x.value == Top(stack) then 1 else 0);
    }

    method OpIszero(stack: Stack)
      requires Ready(stack) && |stack.vals| >= 1
      modifies this, stack, Mine(stack)
      ensures Ready(stack) && held == old(held) && fresh(Mine(stack) - old(Mine(stack)))
      ensures stack.vals == Computed(0x15, old(stack.vals))
    {
      hide Interpreter.Ready, Distinct, Among, BitAnd, BitOr, BitXor, Pow2, Signed, SignedLow, Pow;
      SetTop(stack, if Top(stack) > 0 then 0 else 1);
    }

    method OpAnd(stack: Stack)
      requires Ready(stack) && |stack.vals| >= 2
      modifies this, stack, Mine(stack)
      ensures Ready(stack) && held == old(held) && fresh(Mine(stack) - old(Mine(stack)))
      ensures stack.vals == Computed(0x16, old(stack.vals))
    {
      hide Interpreter.Ready, Distinct, Among, BitAnd, BitOr, BitXor, Pow2, Signed, SignedLow, Pow;
      BitwiseInRange(old(stack.vals)[|stack.vals| - 1], old(stack.vals)[|stack.vals| - 2]);
      var x := Pop(stack);
      var y := Pop(stack);
      OneApart(y);
      Repush(stack, x, BitAnd(x.value, y.value), [y]);
    }

    method OpOr(stack: Stack)
      requires Ready(stack) && |stack.vals| >= 2
      modifies this, stack, Mine(stack)
      ensures Ready(stack) && held == old(held) && fresh(Mine(stack) - old(Mine(stack)))
      ensures stack.vals == Computed(0x17, old(stack.vals))
    {
      hide Interpreter.Ready, Distinct, Among, BitAnd, BitOr, BitXor, Pow2, Signed, SignedLow, Pow;
      BitwiseInRange(old(stack.vals)[|stack.vals| - 1], old(stack.vals)[|stack.vals| - 2]);
      var x := Pop(stack);
      Fold(stack, x, BitOr(x.value, Top(stack)));
    }

    method OpXor(stack: Stack)
      requires Ready(stack) && |stack.vals| >= 2
      modifies this, stack, Mine(stack)
      ensures Ready(stack) && held == old(held) && fresh(Mine(stack) - old(Mine(stack)))
      ensures stack.vals == Computed(0x18, old(stack.vals))
    {
      hide Interpreter.Ready, Distinct, Among, BitAnd, BitOr, BitXor, Pow2, Signed, SignedLow, Pow;
      BitwiseInRange(old(stack.vals)[|stack.vals| - 1], old(stack.vals)[|stack.vals| - 2]);
      var x := Pop(stack);
      Fold(stack, x, BitXor(x.value, Top(stack)));
    }

    method OpByte(stack: Stack)
      requires Ready(stack) && |stack.vals| >= 2
      modifies this, stack, Mine(stack)
      ensures Ready(stack) && held == old(held) && fresh(Mine(stack) - old(Mine(stack)))
      ensures stack.vals == Computed(0x1a, old(stack.vals))
    {
      hide Interpreter.Ready, Distinct, Among, BitAnd, BitOr, BitXor, Pow2, Signed, SignedLow, Pow;
      var x := Pop(stack);
      Fold(stack, x, if x.value < 32 then ByteAt(Top(stack), 31 - x.value) else 0);
    }

    method OpShl(stack: Stack)
      requires Ready(stack) && |stack.vals| >= 2
      modifies this, stack, Mine(stack)
      ensures Ready(stack) && held == old(held) && fresh(Mine(stack) - old(Mine(stack)))
      ensures stack.vals == Computed(0x1b, old(stack.vals))
    {
      hide Interpreter.Ready, Distinct, Among, BitAnd, BitOr, BitXor, Pow2, Signed, SignedLow, Pow;
      var x := Pop(stack);
      if x.value >= 256 {
        ShiftedOut(x.value, Top(stack));
      }
      Fold(stack, x, if x.value >= 256 then 0 else U256(Top(stack) * Pow2(x.value)));
    }

    method OpShr(stack: Stack)
      requires Ready(stack) && |stack.vals| >= 2
      modifies this, stack, Mine(stack)
      ensures Ready(stack) && held == old(held) && fresh(Mine(stack) - old(Mine(stack)))
      ensures stack.vals == Computed(0x1c, old(stack.vals))
    {
      hide Interpreter.Ready, Distinct, Among, BitAnd, BitOr, BitXor, Pow2, Signed, SignedLow, Pow;
      var x := Pop(stack);
      if x.value >= 256 {
        ShiftedOut(x.value, Top(stack));
      }
      Fold(stack, x, if x.value >= 256 then 0 else U256(Top(stack) / Pow2(x.value)));
    }

    /** The shifted word may be a new one; then the one that was popped is dropped. */
    method OpSar(stack: Stack)
      requires Ready(stack) && |stack.vals| >= 2
      modifies this, stack, Mine(stack)
      ensures Ready(stack) && held == old(held) && fresh(Mine(stack) - old(Mine(stack)))
      ensures stack.vals == Computed(0x1d, old(stack.vals))
    {
      hide Interpreter.Ready, Distinct, Among, BitAnd, BitOr, BitXor, Pow2, Signed, SignedLow, Pow;
      ghost var before := held;
      var shift := Pop(stack);
      var value := Pop(stack);
      value := S256(stack, value);
      OneApart(shift);
      Repush(stack, value, ShiftedSigned(value.value, shift.value), [shift]);
      Drop(stack, before);
    }

    /** Exponents that need multiplication; the result comes in a new word. */
    method ExpLong(stack: Stack, base: BigInt, exponent: BigInt)
      requires Ready(stack) && {base, exponent} <= held && base != exponent
      requires 0 <= base.value < WORD && 0 <= exponent.value
      modifies this`pool, this`held, stack, base, exponent
      ensures Ready(stack) && held == old(held) - {base, exponent}
      ensures stack.vals == old(stack.vals) + [Wrap(Pow(old(base.value), old(exponent.value)))]
      ensures fresh(Among(stack.data) - Among(old(stack.data))) && Among(pool) <= Among(old(pool)) + {base, exponent}
    {
      hide Interpreter.Ready, Distinct, Pow, Wrap;
      OneApart(base);
      OneApart(exponent);
      var result := Exp(stack, base, exponent);
      Repush(stack, result, result.value, [base]);
      Put(stack, [exponent]);
    }

    method OpExp(stack: Stack)
      requires Ready(stack) && |stack.vals| >= 2
      modifies this, stack, Mine(stack)
      ensures Ready(stack) && held == old(held) && fresh(Mine(stack) - old(Mine(stack)))
      ensures stack.vals == Computed(0x0a, old(stack.vals))
    {
      hide Interpreter.Ready, Distinct, BitAnd, BitOr, BitXor, Pow2, Signed, SignedLow, Pow, Wrap, LogicResult;
      var base := Pop(stack);
      var exponent := Pop(stack);
      PowShort(base.value, exponent.value);
      OneApart(exponent);
      if exponent.value < 1 || base.value == 0 || exponent.value == 1 {
        var v: Word := if exponent.value < 1 then 1 else base.value;
        Repush(stack, base, v, [exponent]);
      } else {
        ExpLong(stack, base, exponent);
      }
    }

    method OpSignExtend(stack: Stack)
      requires Ready(stack) && |stack.vals| >= 2
      modifies this, stack, Mine(stack)
      ensures Ready(stack) && held == old(held) && fresh(Mine(stack) - old(Mine(stack)))
      ensures stack.vals == Computed(0x0b, old(stack.vals))
    {
      hide Interpreter.Ready, Distinct, Among, BitAnd, BitOr, BitXor, Pow2, Signed, SignedLow, Pow;
      var back := Pop(stack);
      if back.value < 31 {
        var bit := back.value * 8 + 7;
        var num := Pop(stack);
        var v := SignExtended(num.value, bit);
        Assign(stack, back, Pow2(bit) - 1);
        OneApart(back);
        Repush(stack, num, v, [back]);
      } else {
        assert Under(old(stack.vals), 1) == Under(old(stack.vals), 2) + [old(stack.vals)[|old(stack.vals)| - 2]];
        OneApart(back);
        Put(stack, [back]);
      }
    }

    /** The computing instructions. */
    method Compute(stack: Stack, op: Byte)
      requires Ready(stack) && Computes(op) && |stack.vals| >= Operands(op)
      modifies this, stack, Mine(stack)
      ensures Ready(stack) && held == old(held) && fresh(Mine(stack) - old(Mine(stack)))
      ensures stack.vals == Computed(op, old(stack.vals))
    {
      hide Interpreter.Ready, Distinct, Among, Result;
      if op <= 0x0b {
        ComputeNumber(stack, op);
      } else {
        ComputeBits(stack, op);
      }
    }

    method ComputeNumber(stack: Stack, op: Byte)
      requires Ready(stack) && Computes(op) && op <= 0x0b && |stack.vals| >= Operands(op)
      modifies this, stack, Mine(stack)
      ensures Ready(stack) && held == old(held) && fresh(Mine(stack) - old(Mine(stack)))
      ensures stack.vals == Computed(op, old(stack.vals))
    {
      hide Interpreter.Ready, Distinct, Among, Result, Interpreter.Mine;
      if op == 0x01 {
        OpAdd(stack);
      } else if op == 0x02 {
        OpMul(stack);
      } else if op == 0x03 {
        OpSub(stack);
      } else if op == 0x04 {
        OpDiv(stack);
      } else if op == 0x05 {
        OpSdiv(stack);
      } else if op == 0x06 {
        OpMod(stack);
      } else if op == 0x07 {
        OpSmod(stack);
      } else if op == 0x08 {
        OpAddmod(stack);
      } else if op == 0x09 {
        OpMulmod(stack);
      } else if op == 0x0a {
        OpExp(stack);
      } else {
        OpSignExtend(stack);
      }
    }

    method ComputeBits(stack: Stack, op: Byte)
      requires Ready(stack) && Computes(op) && op >= 0x10 && |stack.vals| >= Operands(op)
      modifies this, stack, Mine(stack)
      ensures Ready(stack) && held == old(held) && fresh(Mine(stack) - old(Mine(stack)))
      ensures stack.vals == Computed(op, old(stack.vals))
    {
      hide Interpreter.Ready, Distinct, Among, Result, Interpreter.Mine;
      if op == 0x10 {
        OpLt(stack);
      } else if op == 0x11 {
        OpGt(stack);
      } else if op == 0x12 {
        OpSlt(stack);
      } else if op == 0x13 {
        OpSgt(stack);
      } else if op == 0x14 {
        OpEq(stack);
      } else if op == 0x15 {
        OpIszero(stack);
      } else if op == 0x16 {
        OpAnd(stack);
      } else if op == 0x17 {
        OpOr(stack);
      } else if op == 0x18 {
        OpXor(stack);
      } else if op == 0x19 {
        OpNot(stack);
      } else if op == 0x1a {
        OpByte(stack);
      } else if op == 0x1b {
        OpShl(stack);
      } else if op == 0x1c {
        OpShr(stack);
      } else {
        OpSar(stack);
      }
    }

    /* ---- The other instructions ---- */

    /** A word from the pool with a value read from the context. */
    method PushWord(stack: Stack, v: Word)
      requires Ready(stack)
      modifies this, stack, Mine(stack)
      ensures Ready(stack) && held == old(held) && fresh(Mine(stack) - old(Mine(stack)))
      ensures stack.vals == old(stack.vals) + [v]
    {
      hide Interpreter.Ready, Distinct, Among, Tops;
      var x := Get(stack);
      Assign(stack, x, v);
      Push(stack, x);
    }

    /** The word on top is looked up, and replaced in place. */
    method Replace(stack: Stack, v: Word) returns (seen: seq<int>)
      requires Ready(stack) && |stack.vals| >= 1
      modifies this, stack, Mine(stack)
      ensures Ready(stack) && held == old(held) && fresh(Mine(stack) - old(Mine(stack)))
      ensures stack.vals == Under(old(stack.vals), 1) + [v] && seen == Tops(old(stack.vals), 1)
    {
      hide Interpreter.Ready, Distinct, Among, Tops;
      TopsOne(stack.vals);
      seen := [Top(stack)];
      SetTop(stack, v);
    }

    /** The values of some words, as they are now. */
    method Read(ws: seq<BigInt>) returns (vs: seq<int>)
      ensures |vs| == |ws| && forall i :: 0 <= i < |ws| ==> vs[i] == ws[i].value
    {
      vs := [];
      for i := 0 to |ws|
        invariant |vs| == i && forall j :: 0 <= j < i ==> vs[j] == ws[j].value
      {
        vs := vs + [ws[i].value];
      }
    }

    /** Takes some words and gives those from `first` up to `last` back to the pool; the others are dropped. */
    method Consume(stack: Stack, n: nat, first: nat, last: nat) returns (seen: seq<int>)
      requires Ready(stack) && n <= |stack.vals| && first <= last <= n
      modifies this, stack, Mine(stack)
      ensures Ready(stack) && held == old(held) && fresh(Mine(stack) - old(Mine(stack)))
      ensures stack.vals == Under(old(stack.vals), n) && seen == Tops(old(stack.vals), n)
    {
      hide Interpreter.Ready, Distinct, Among, Tops;
      ghost var before := held;
      var ws := PopMany(stack, n);
      seen := Read(ws);
      TopsAre(old(stack.vals), n, seen);
      SliceApart(ws, first, last);
      Put(stack, ws[first..last]);
      Drop(stack, before);
    }

    /** Takes some words and leaves a word that depends on them. */
    method Load(stack: Stack, n: nat, v: Word) returns (seen: seq<int>)
      requires Ready(stack) && n <= |stack.vals|
      modifies this, stack, Mine(stack)
      ensures Ready(stack) && held == old(held) && fresh(Mine(stack) - old(Mine(stack)))
      ensures stack.vals == Under(old(stack.vals), n) + [v] && seen == Tops(old(stack.vals), n)
    {
      hide Interpreter.Ready, Distinct, Among, Tops;
      ghost var before := held;
      var ws := PopMany(stack, n);
      seen := Read(ws);
      TopsAre(old(stack.vals), n, seen);
      var x := Get(stack);
      Assign(stack, x, v);
      Push(stack, x);
      Put(stack, ws);
      Drop(stack, before);
    }

    /** The word for the result is taken first, and the operand is dropped. */
    method OpCallDataLoad(stack: Stack, v: Word) returns (seen: seq<int>)
      requires Ready(stack) && |stack.vals| >= 1
      modifies this, stack, Mine(stack)
      ensures Ready(stack) && held == old(held) && fresh(Mine(stack) - old(Mine(stack)))
      ensures stack.vals == Under(old(stack.vals), 1) + [v] && seen == Tops(old(stack.vals), 1)
    {
      hide Interpreter.Ready, Distinct, Among, Tops;
      ghost var before := held;
      TopsOne(stack.vals);
      var x := Get(stack);
      var offset := Pop(stack);
      seen := [offset.value];
      Assign(stack, x, v);
      Push(stack, x);
      Drop(stack, before);
    }

    method NewWord(stack: Stack, v: int) returns (x: BigInt)
      requires Ready(stack)
      modifies this`held
      ensures Ready(stack) && fresh(x) && x.value == v && held == old(held) + {x} && x !in old(held)
    {
      x := new BigInt(v);
      held := held + {x};
    }

    method HashWord(stack: Stack, hash: Word, found: bool) returns (x: BigInt)
      requires Ready(stack)
      modifies this`pool, this`held
      ensures Ready(stack) && held == old(held) + {x} && x !in old(held) && Among(pool) <= Among(old(pool))
      ensures fresh({x} - Among(old(pool)))
    {
      hide Interpreter.Ready;
      if found {
        x := NewWord(stack, hash);
      } else {
        x := Get(stack);
      }
    }

    /** Only the last 256 hashes are available; a hash comes in a new word. */
    method OpBlockhash(stack: Stack, hash: Word) returns (seen: seq<int>)
      requires Ready(stack) && |stack.vals| >= 1
      modifies this, stack, Mine(stack)
      ensures Ready(stack) && held == old(held) && fresh(Mine(stack) - old(Mine(stack)))
      ensures var num := old(stack.vals)[|old(stack.vals)| - 1];
              stack.vals == Under(old(stack.vals), 1) + [if Recent(env, num) then hash else 0]
      ensures seen == Tops(old(stack.vals), 1)
    {
      hide Interpreter.Ready, Distinct, Among, Tops;
      ghost var before := held;
      TopsOne(stack.vals);
      var num := Pop(stack);
      seen := [num.value];
      var n := Get(stack);
      Assign(stack, n, env.number - 257);
      PairApart(num, n);
      var found := num.value > n.value && num.value < env.number;
      var x := HashWord(stack, hash, found);
      Repush(stack, x, if found then hash else 0, [num, n]);
      Drop(stack, before);
    }

    /** Fails if the region ends behind the return data; the words go back to the pool either way. */
    method OpReturnDataCopy(stack: Stack, size: Word) returns (seen: seq<int>, bad: bool)
      requires Ready(stack) && |stack.vals| >= 3
      modifies this, stack, Mine(stack)
      ensures Ready(stack) && held == old(held) && fresh(Mine(stack) - old(Mine(stack)))
      ensures stack.vals == Under(old(stack.vals), 3) && seen == Tops(old(stack.vals), 3)
      ensures var n := |old(stack.vals)|;
              bad <==> old(stack.vals)[n - 2] + old(stack.vals)[n - 3] > size
    {
      hide Interpreter.Ready, Distinct, Among, Tops;
      ghost var before := held;
      var ws := PopMany(stack, 3);
      seen := Read(ws);
      TopsAre(old(stack.vals), 3, seen);
      var end := Get(stack);
      Assign(stack, end, ws[1].value + ws[2].value);
      bad := end.value > size;
      SnocApart(ws, end);
      Put(stack, ws + [end]);
      Drop(stack, before);
    }

    method OpDup(stack: Stack, n: nat)
      requires Ready(stack) && 1 <= n <= |stack.vals|
      modifies this, stack, Mine(stack)
      ensures Ready(stack) && held == old(held) && fresh(Mine(stack) - old(Mine(stack)))
      ensures stack.vals == old(stack.vals) + [old(stack.vals)[|old(stack.vals)| - n]]
    {
      var x := Get(stack);
      Assign(stack, x, stack.data[|stack.data| - n].value);
      Push(stack, x);
    }

    method OpSwap(stack: Stack, n: nat)
      requires Ready(stack) && 1 <= n <= |stack.vals|
      modifies this, stack, Mine(stack)
      ensures Ready(stack) && held == old(held) && fresh(Mine(stack) - old(Mine(stack)))
      ensures var m, vals := |old(stack.vals)|, old(stack.vals);
              stack.vals == vals[m - n := vals[m - 1]][m - 1 := vals[m - n]]
    {
      var m, data := |stack.data|, stack.data;
      SwapApart(pool, data, held, m - n);
      stack.data := data[m - n := data[m - 1]][m - 1 := data[m - n]];
      stack.vals := stack.vals[m - n := stack.vals[m - 1]][m - 1 := stack.vals[m - n]];
    }

    /** Any instruction but a call. */
    method Plain(stack: Stack, op: Byte, answer: Word, ok: bool, value: BigInt)
      returns (seen: seq<int>, stop: bool)
      requires Ready(stack) && Admitted(env, op, |stack.vals|) && !IsCall(op)
      requires value in held && 0 <= value.value < WORD
      modifies this, stack, Mine(stack)
      ensures Ready(stack) && held == old(held) && fresh(Mine(stack) - old(Mine(stack)))
      ensures Effect(stack.vals, seen, stop) == PlainEffect(env, op, answer, ok, old(value.value), old(stack.vals))
    {
      hide Interpreter.Ready, Distinct, Among, Interpreter.Mine, Tops, Under, Computed, PlainEffect, Lookup;
      if Computes(op) {
        PlainComputes(env, op, answer, ok, value.value, stack.vals);
      }
      ValueApart(stack, value);
      if Computes(op) {
        Compute(stack, op);
        seen, stop := [], false;
      } else if op < 0x50 {
        seen, stop := PlainContext(stack, op, answer, ok, value);
      } else if op < 0x60 {
        seen, stop := PlainStorage(stack, op, answer, ok, value);
      } else if op < 0xa0 {
        seen, stop := PlainStack(stack, op, answer, ok, value);
      } else {
        seen, stop := PlainSystem(stack, op, answer, ok, value);
      }
    }

    method PlainContext(stack: Stack, op: Byte, answer: Word, ok: bool, value: BigInt)
      returns (seen: seq<int>, stop: bool)
      requires Ready(stack) && Admitted(env, op, |stack.vals|) && !IsCall(op) && !Computes(op) && op < 0x50
      requires value in held && 0 <= value.value < WORD
      modifies this, stack, Mine(stack)
      ensures Ready(stack) && held == old(held) && fresh(Mine(stack) - old(Mine(stack)))
      ensures Effect(stack.vals, seen, stop) == PlainEffect(env, op, answer, ok, old(value.value), old(stack.vals))
    {
      hide Interpreter.Ready, Distinct, Among, Interpreter.Mine, Tops, Under, Computed;
      NothingTaken(stack.vals);
      stop := false;
      if op == 0x00 {
        seen := Consume(stack, 0, 0, 0);
        stop := true;
      } else if op == 0x20 {
        seen := Load(stack, 2, answer);
      } else if op == 0x31 || op == 0x3b || op == 0x3f {
        seen := Replace(stack, answer);
      } else if op == 0x35 {
        seen := OpCallDataLoad(stack, answer);
      } else if op == 0x37 || op == 0x39 {
        seen := Consume(stack, 3, 0, 3);
      } else if op == 0x3c {
        seen := Consume(stack, 4, 1, 4);
      } else if op == 0x3e {
        seen, stop := OpReturnDataCopy(stack, answer);
      } else if op == 0x40 {
        seen := OpBlockhash(stack, answer);
      } else {
        PushWord(stack, if op == 0x34 then value.value else answer);
        seen := [];
      }
    }

    method PlainStorage(stack: Stack, op: Byte, answer: Word, ok: bool, value: BigInt)
      returns (seen: seq<int>, stop: bool)
      requires Ready(stack) && Admitted(env, op, |stack.vals|) && !IsCall(op) && !Computes(op) && 0x50 <= op < 0x60
      requires value in held && 0 <= value.value < WORD
      modifies this, stack, Mine(stack)
      ensures Ready(stack) && held == old(held) && fresh(Mine(stack) - old(Mine(stack)))
      ensures Effect(stack.vals, seen, stop) == PlainEffect(env, op, answer, ok, old(value.value), old(stack.vals))
    {
      hide Interpreter.Ready, Distinct, Among, Interpreter.Mine, Tops, Under, Computed;
      NothingTaken(stack.vals);
      stop := false;
      if op == 0x50 {
        seen := Consume(stack, 1, 0, 1);
        seen := [];
      } else if op == 0x51 {
        seen := Load(stack, 1, answer);
      } else if op == 0x52 {
        seen := Consume(stack, 2, 0, 2);
      } else if op == 0x53 {
        seen := Consume(stack, 2, 0, 0);
      } else if op == 0x54 {
        seen := Replace(stack, answer);
      } else if op == 0x55 {
        seen := Consume(stack, 2, 1, 2);
      } else if op == 0x56 {
        stop := !ok;
        seen := Consume(stack, 1, 0, if stop then 0 else 1);
      } else if op == 0x57 {
        stop := Back(stack, 1) != 0 && !ok;
        seen := Consume(stack, 2, 0, if stop then 0 else 2);
      } else if op == 0x5b {
        seen := Consume(stack, 0, 0, 0);
      } else {
        PushWord(stack, answer);
        seen := [];
      }
    }

    method PlainStack(stack: Stack, op: Byte, answer: Word, ok: bool, value: BigInt)
      returns (seen: seq<int>, stop: bool)
      requires Ready(stack) && Admitted(env, op, |stack.vals|) && !IsCall(op) && !Computes(op) && 0x60 <= op < 0xa0
      requires value in held && 0 <= value.value < WORD
      modifies this, stack, Mine(stack)
      ensures Ready(stack) && held == old(held) && fresh(Mine(stack) - old(Mine(stack)))
      ensures Effect(stack.vals, seen, stop) == PlainEffect(env, op, answer, ok, old(value.value), old(stack.vals))
    {
      hide Interpreter.Ready, Distinct, Among, Interpreter.Mine, Tops, Under, Computed;
      NothingTaken(stack.vals);
      stop, seen := false, [];
      if op < 0x80 {
        PushWord(stack, answer);
      } else if op < 0x90 {
        OpDup(stack, op - 0x7f);
      } else {
        OpSwap(stack, op - 0x8e);
      }
    }

    method PlainSystem(stack: Stack, op: Byte, answer: Word, ok: bool, value: BigInt)
      returns (seen: seq<int>, stop: bool)
      requires Ready(stack) && Admitted(env, op, |stack.vals|) && !IsCall(op) && !Computes(op) && 0xa0 <= op
      requires value in held && 0 <= value.value < WORD
      modifies this, stack, Mine(stack)
      ensures Ready(stack) && held == old(held) && fresh(Mine(stack) - old(Mine(stack)))
      ensures Effect(stack.vals, seen, stop) == PlainEffect(env, op, answer, ok, old(value.value), old(stack.vals))
    {
      hide Interpreter.Ready, Distinct, Among, Interpreter.Mine, Tops, Under, Computed;
      NothingTaken(stack.vals);
      if op <= 0xa4 {
        seen := Consume(stack, op - 0x9e, 0, 2);
        stop := false;
      } else if op == 0xff {
        seen := Consume(stack, 1, 0, 0);
        stop := true;
      } else {
        seen := Consume(stack, 2, 0, 2);
        stop := true;
      }
    }

    function Back(stack: Stack, n: nat): (v: int)
      requires Ready(stack) && n < |stack.vals|
      reads this, pool, stack, stack.data
      ensures v == stack.vals[|stack.vals| - 1 - n]
    {
      stack.data[|stack.data| - 1 - n].value
    }

    lemma ValueApart(stack: Stack, value: BigInt)
      requires Ready(stack) && value in held
      ensures value !in Mine(stack) && |stack.data| == |stack.vals|
    {
    }

    /* ---- Calls and frames ---- */

    /** Between frames: no stack but those that are held. */
    ghost predicate Idle()
      reads this, Among(pool)
    {
      Apart(pool, [], held) && (verifyPool ==> Unused(pool))
    }

    /** The stack of a frame whose callee is about to run. */
    ghost method Suspend(stack: Stack)
      requires Ready(stack)
      modifies this`held
      ensures Idle() && held == old(held) + Among(stack.data)
    {
      held := held + Among(stack.data);
    }

    ghost method Resume(stack: Stack, before: set<BigInt>)
      requires Idle() && held == before + Among(stack.data) && before !! Among(stack.data)
      requires Distinct(stack.data) && Holds(stack.data, stack.vals)
      modifies this`held
      ensures Ready(stack) && held == before
    {
      held := before;
    }

    /** Runs the callee of a call while the caller's stack and operands stay as they are. */
    method Inner(stack: Stack, body: seq<Instr>, value: BigInt) returns (log: seq<seq<int>>)
      requires Ready(stack) && value in held && 0 <= value.value < WORD
      modifies this, Among(pool)
      ensures Ready(stack) && held == old(held) && fresh(Among(pool) - old(Among(pool)))
      ensures log == Run(env, body, value.value, [])
      decreases body, 1
    {
      ghost var before := held;
      DataApart(stack);
      Suspend(stack);
      log := RunFrame(body, value);
      Resume(stack, before);
    }

    lemma DataApart(stack: Stack)
      requires Ready(stack)
      ensures held !! Among(stack.data) && Distinct(stack.data) && Holds(stack.data, stack.vals)
      ensures Among(stack.data) !! Among(pool) && held !! Among(pool)
    {
    }

    /** The word whose value the callee sees: an operand, the caller's own, or a new one. */
    method Callee(stack: Stack, op: Byte, ws: seq<BigInt>, value: BigInt, ghost vals: seq<Word>) returns (callee: BigInt)
      requires Ready(stack) && IsCall(op) && |ws| == CallOperands(op) <= |vals|
      requires value in held && 0 <= value.value < WORD
      requires forall k :: HasGas(op) <= k < |ws| ==> ws[k] in held && ws[k].value == vals[|vals| - 1 - k]
      modifies this`held, set k | HasGas(op) <= k < |ws| :: ws[k]
      ensures Ready(stack) && old(held) <= held && fresh(held - old(held))
      ensures callee in held && callee.value == Handed(op, old(value.value), vals)
      ensures forall k :: HasGas(op) <= k < |ws| ==> ws[k].value == vals[|vals| - 1 - k]
    {
      hide Interpreter.Ready, BitAnd;
      if op == 0xf0 || op == 0xf5 {
        callee := ws[0];
      } else if op == 0xf1 || op == 0xf2 {
        callee := ws[2];
        Assign(stack, callee, U256(callee.value));
      } else if op == 0xf4 {
        callee := value;
      } else {
        callee := NewWord(stack, 0);
      }
    }

    /** The result of a call, when its operands are done with. */
    method Leave(stack: Stack, ws: seq<BigInt>, v: Word, ghost before: set<BigInt>) returns (ghost got: set<BigInt>)
      requires Ready(stack) && Distinct(ws) && Among(ws) <= held && before <= held - Among(ws)
      modifies this, stack, Mine(stack), Among(ws)
      ensures Ready(stack) && held == before && stack.vals == old(stack.vals) + [v]
      ensures fresh(got) && Mine(stack) <= old(Mine(stack)) + Among(ws) + got
    {
      hide Interpreter.Ready, Distinct;
      var x := Get(stack);
      got := {x} - old(Among(pool));
      Repush(stack, x, v, ws);
      Drop(stack, before);
    }

    /** Takes the operands of a call, gives the gas back, and shows what is needed before the callee runs. */
    method CallWords(stack: Stack, i: Instr, value: BigInt) returns (ws: seq<BigInt>, seen: seq<int>, callee: BigInt)
      requires Ready(stack) && i.Enter? && IsCall(i.op) && |stack.vals| >= CallOperands(i.op)
      requires value in held && 0 <= value.value < WORD
      modifies this, stack, Mine(stack)
      ensures Ready(stack) && stack.vals == Under(old(stack.vals), CallOperands(i.op)) && seen == Before(i, old(stack.vals))
      ensures |ws| == CallOperands(i.op) - HasGas(i.op) && Distinct(ws) && Among(ws) <= held && old(held) <= held - Among(ws)
      ensures forall k :: 0 <= k < |ws| ==>
                ws[k] in held && ws[k].value == old(stack.vals)[|old(stack.vals)| - 1 - HasGas(i.op) - k]
      ensures callee in held && callee.value == Handed(i.op, old(value.value), old(stack.vals))
      ensures Mine(stack) + Among(ws) <= old(Mine(stack))
    {
      hide Interpreter.Ready, Distinct, Among, Tops, Handed, Before, Under;
      var gas, shown := HasGas(i.op), ShownFirst(i.op);
      var all := PopMany(stack, CallOperands(i.op));
      CutApart(all, gas);
      Put(stack, all[..gas]);
      ws := all[gas..];
      AllAmong(ws);
      DataApart(stack);
      callee := Callee(stack, i.op, all, value, old(stack.vals));
      seen := Read(ws[..shown]);
      CallSeenBefore(i, old(stack.vals), seen);
    }

    /** The call instructions. */
    method Enter(stack: Stack, i: Instr, value: BigInt) returns (log: seq<seq<int>>)
      requires Ready(stack) && i.Enter? && IsCall(i.op) && |stack.vals| >= CallOperands(i.op)
      requires value in held && 0 <= value.value < WORD
      modifies this, stack, Mine(stack)
      ensures Ready(stack) && held == old(held) && fresh(Mine(stack) - old(Mine(stack)))
      ensures stack.vals == Under(old(stack.vals), CallOperands(i.op)) + [i.answer]
      ensures log == [Before(i, old(stack.vals))] + Run(env, i.body, Handed(i.op, old(value.value), old(stack.vals)), []) +
                     [After(i, old(stack.vals))]
      decreases i, 1
    {
      hide Interpreter.Ready, Distinct, Tops, Run, Handed, Before, After, Under;
      ghost var before, mine := held, Mine(stack);
      var ws, seen, callee := CallWords(stack, i, value);
      DataApart(stack);
      ghost var mid := Among(pool);
      var inner := Inner(stack, i.body, callee);
      ghost var added := Among(pool) - mid;
      var seen' := [];
      if i.copies && HasGas(i.op) == 1 {
        seen' := Read(ws[ShownFirst(i.op)..]);
      }
      CallSeenAfter(i, old(stack.vals), seen');
      ghost var got := Leave(stack, ws, i.answer, before);
      assert Mine(stack) <= mine + added + got;
      log := [seen] + inner + [seen'];
    }

    /** At the end of a frame its stack goes back to the pool. */
    method Release(stack: Stack)
      requires Ready(stack)
      modifies this, stack, Among(stack.data)
      ensures Idle() && held == old(held) && Among(pool) <= old(Mine(stack))
    {
      var ws := stack.data;
      DataApart(stack);
      held := held + Among(ws);
      stack.data, stack.vals := [], [];
      Put(stack, ws);
    }

    /** `verifyIntegerPool`: panics if a pooled word has changed. */
    method VerifyIntegerPool(stack: Stack) returns (panics: bool)
      requires Ready(stack)
      ensures verifyPool ==> !panics
    {
      for i := 0 to |pool| {
        if pool[i].value != CHECK_VALUE {
          return true;
        }
      }
      return false;
    }

    /** One step of a frame, with the check of the pool that follows it. */
    method Step(stack: Stack, i: Instr, value: BigInt) returns (shown: seq<seq<int>>, stop: bool)
      requires Ready(stack) && Executes(env, i, |stack.vals|) && value in held && 0 <= value.value < WORD
      modifies this, stack, Mine(stack)
      ensures Ready(stack) && held == old(held) && fresh(Mine(stack) - old(Mine(stack)))
      ensures value.value == old(value.value) && shown == Shown(env, i, value.value, old(stack.vals))
      ensures stop == Stops(env, i, value.value, old(stack.vals)) && stack.vals == Next(env, i, value.value, old(stack.vals))
      decreases i, 2
    {
      hide Interpreter.Ready, Distinct, Run, PlainEffect, Before, After, Handed, Lookup;
      ValueApart(stack, value);
      if i.Plain? {
        var seen;
        seen, stop := Plain(stack, i.op, i.answer, i.ok, value);
        shown := [seen];
      } else {
        CallPops(env, i.op);
        shown := Enter(stack, i, value);
        stop := false;
      }
      if verifyPool {
        var panics := VerifyIntegerPool(stack);
        assert !panics;
      }
    }

    /** A frame: what it shows is what the same instructions show on a stack of values. */
    method RunFrame(trace: seq<Instr>, value: BigInt) returns (log: seq<seq<int>>)
      requires Idle() && value in held && 0 <= value.value < WORD
      modifies this, Among(pool)
      ensures Idle() && held == old(held) && fresh(Among(pool) - old(Among(pool)))
      ensures value.value == old(value.value) && log == Run(env, trace, value.value, [])
      decreases trace, 0
    {
      hide Interpreter.Ready, Interpreter.Idle, Distinct, Apart, Holds, Unused, Run, Executes, Shown, Stops, Next;
      var stack := new Stack();
      Fresh(stack);
      log := [];
      var k, running := 0, true;
      while running && k < |trace|
        invariant Ready(stack) && held == old(held) && value.value == old(value.value)
        invariant 0 <= k <= |trace| && fresh(Mine(stack) - old(Among(pool)))
        invariant log + (if running then Run(env, trace[k..], value.value, stack.vals) else []) ==
                  Run(env, trace, value.value, [])
        decreases |trace| - k, running
      {
        RunStep(env, trace, k, value.value, stack.vals);
        ValueApart(stack, value);
        ghost var mine := Mine(stack);
        if Executes(env, trace[k], |stack.data|) {
          var shown, stop := Step(stack, trace[k], value);
          assert Mine(stack) - old(Among(pool)) <= (Mine(stack) - mine) + (mine - old(Among(pool)));
          log := log + shown;
          k, running := k + 1, !stop;
        } else {
          running := false;
        }
      }
      RunEnd(env, trace, value.value, stack.vals);
      ValueApart(stack, value);
      Release(stack);
    }

    /** A call from outside the interpreter. */
    method Execute(trace: seq<Instr>, value: Word) returns (log: seq<seq<int>>)
      requires Idle() && held == {}
      modifies this, Among(pool)
      ensures Idle() && held == {} && log == Run(env, trace, value, [])
    {
      hide Run;
      var word := new BigInt(value);
      held := {word};
      log := RunFrame(trace, word);
      held := {};
    }

    lemma Fresh(stack: Stack)
      requires Idle() && stack.data == [] && stack.vals == []
      ensures Ready(stack) && Mine(stack) == Among(pool)
    {
    }
  }

  lemma HeldApart(pool: seq<BigInt>, data: seq<BigInt>, held: set<BigInt>, x: BigInt)
    requires Apart(pool, data, held) && x in held
    ensures x !in pool && x !in data
  {
    assert x !in Among(pool) && x !in Among(data);
  }

  /** `bigEndianByteAt`: byte `n` of a number, counted from the low end. */
  function ByteAt(x: nat, n: nat): (b: Byte)
    ensures b == x / Pow2(8 * n) % 256
  {
    LimbAt(x, n / 8);
    ByteInLimb(x, n / 8, 8 * (n % 8));
    ZeroByte(8 * (n % 8));
    assert 64 * (n / 8) + 8 * (n % 8) == 8 * n;
    var words := Limbs(x);
    if n / 8 >= |words| then 0 else words[n / 8] / Pow2(8 * (n % 8)) % 256
  }

  lemma ZeroByte(s: nat)
    ensures 0 / Pow2(s) % 256 == 0
  {
    DivUnique(0, Pow2(s), 0, 0);
  }

  /** The quotient of the absolute values, negated if the signs differ. */
  function SignedDivision(x: int, y: int): (w: Word)
    ensures w == if y == 0 then 0 else Wrap(Quotient(x, y))
  {
    ZeroQuotient(y);
    if y == 0 || x == 0 then 0
    else
      var q := Abs(x) / Abs(y);
      U256(if (x < 0) != (y < 0) then -q else q)
  }

  lemma ZeroQuotient(y: int)
    ensures y != 0 ==> Wrap(Quotient(0, y)) == 0
  {
    if y != 0 {
      DivUnique(0, Abs(y), 0, 0);
    }
  }

  function SignedRemainder(x: int, y: int): (w: Word)
    ensures w == if y == 0 then 0 else Wrap(Remainder(x, y))
  {
    if y == 0 then 0
    else
      var r := Abs(x) % Abs(y);
      U256(if x < 0 then -r else r)
  }

  /** An arithmetic shift; from 256 on only the sign is left. */
  function ShiftedSigned(x: int, n: nat): (w: Word)
    requires -HALF <= x < HALF
    ensures w == Wrap(x / Pow2(n))
  {
    if n >= 256 then
      SignedOut(x, n);
      U256(if x >= 0 then 0 else -1)
    else U256(x / Pow2(n))
  }

  /** Sets or clears all bits above the sign bit, by a mask. */
  function SignExtended(x: Word, bit: nat): (w: Word)
    ensures w == Wrap(SignedLow(x, bit))
  {
    SignExtends(x, bit);
    var mask := Pow2(bit) - 1;
    U256(if Bit(x, bit) > 0 then BitOr(x, BitNot(mask)) else BitAnd(x, mask))
  }

  /** `U256`. */
  function U256(x: int): (w: Word)
    ensures w == Wrap(x)
  {
    WrapMask(x);
    BitAnd(x, WORD - 1)
  }

  lemma LastApart(ws: seq<BigInt>)
    requires ws != [] && Distinct(ws)
    ensures var n := |ws| - 1;
            Distinct(ws[..n]) && ws[n] !in ws[..n] && Among(ws) == Among(ws[..n]) + {ws[n]} && ws == ws[..n] + [ws[n]]
  {
    assert ws == ws[..|ws| - 1] + [ws[|ws| - 1]];
  }

  lemma PopApart(pool: seq<BigInt>, data: seq<BigInt>, held: set<BigInt>)
    requires Apart(pool, data, held) && data != []
    ensures var x := data[|data| - 1];
            Apart(pool, data[..|data| - 1], held + {x}) && x !in pool && x !in data[..|data| - 1] && x !in held
  {
    LastApart(data);
  }

  lemma PushApart(pool: seq<BigInt>, data: seq<BigInt>, held: set<BigInt>, x: BigInt)
    requires Apart(pool, data, held) && x in held
    ensures Apart(pool, data + [x], held - {x})
  {
    assert x !in Among(data);
    AmongCat(data, [x]);
  }

  lemma AmongCat(a: seq<BigInt>, b: seq<BigInt>)
    ensures Among(a + b) == Among(a) + Among(b)
  {
  }

  lemma GetApart(pool: seq<BigInt>, data: seq<BigInt>, held: set<BigInt>)
    requires Apart(pool, data, held) && pool != []
    ensures var x := pool[|pool| - 1];
            Apart(pool[..|pool| - 1], data, held + {x}) && x !in pool[..|pool| - 1] && x !in data && x !in held
  {
    LastApart(pool);
  }

  lemma PutApart(pool: seq<BigInt>, data: seq<BigInt>, held: set<BigInt>, ws: seq<BigInt>)
    requires Apart(pool, data, held) && Distinct(ws) && Among(ws) <= held
    ensures Apart(pool + ws, data, held - Among(ws))
    ensures forall w :: w in ws ==> w !in pool && w !in data
  {
    forall w | w in ws
      ensures w !in pool && w !in data
    {
      assert w in Among(ws) && w !in Among(pool) && w !in Among(data);
    }
    AmongCat(pool, ws);
    DistinctCat(pool, ws);
  }

  lemma RestApart(ws: seq<BigInt>)
    requires Distinct(ws) && ws != []
    ensures Distinct(ws[1..]) && ws[0] !in ws[1..] && Among(ws) == {ws[0]} + Among(ws[1..])
  {
    assert ws == [ws[0]] + ws[1..];
  }

  lemma OneApart(x: BigInt)
    ensures Distinct([x]) && Among([x]) == {x}
  {
  }

  lemma PairApart(x: BigInt, y: BigInt)
    requires x != y
    ensures Distinct([x, y]) && Among([x, y]) == {x, y}
  {
  }

  lemma SliceApart(ws: seq<BigInt>, first: nat, last: nat)
    requires Distinct(ws) && first <= last <= |ws|
    ensures Distinct(ws[first..last]) && Among(ws[first..last]) <= Among(ws)
  {
  }

  lemma CutApart(ws: seq<BigInt>, n: nat)
    requires Distinct(ws) && n <= |ws|
    ensures Distinct(ws[..n]) && Distinct(ws[n..]) && Among(ws[..n]) !! Among(ws[n..])
    ensures Among(ws) == Among(ws[..n]) + Among(ws[n..])
  {
    assert ws == ws[..n] + ws[n..];
  }

  lemma AllAmong(ws: seq<BigInt>)
    ensures forall i :: 0 <= i < |ws| ==> ws[i] in Among(ws)
  {
  }

  lemma SnocApart(ws: seq<BigInt>, x: BigInt)
    requires Distinct(ws) && x !in Among(ws)
    ensures Distinct(ws + [x]) && Among(ws + [x]) == Among(ws) + {x}
  {
  }

  lemma SwapApart(pool: seq<BigInt>, data: seq<BigInt>, held: set<BigInt>, i: nat)
    requires Apart(pool, data, held) && i < |data|
    ensures var m := |data|;
            var data' := data[i := data[m - 1]][m - 1 := data[i]];
            Apart(pool, data', held) && Among(data') == Among(data)
  {
    var m := |data|;
    var data' := data[i := data[m - 1]][m - 1 := data[i]];
    assert data'[i] == data[m - 1] && data'[m - 1] == data[i];
    assert forall w :: w in data ==> w in data' by {
      forall w | w in data
        ensures w in data'
      {
        var k :| 0 <= k < m && data[k] == w;
        assert w == data'[if k == i then m - 1 else if k == m - 1 then i else k];
      }
    }
  }

  lemma TopsOne(vals: seq<int>)
    requires |vals| >= 1
    ensures Tops(vals, 1) == [vals[|vals| - 1]]
  {
  }

  lemma TopsAre(vals: seq<int>, n: nat, seen: seq<int>)
    requires n <= |vals| && |seen| == n && forall i :: 0 <= i < n ==> seen[i] == vals[|vals| - 1 - i]
    ensures seen == Tops(vals, n)
  {
  }

  lemma DistinctSnoc(ws: seq<BigInt>, x: BigInt)
    requires Distinct(ws) && x !in Among(ws)
    ensures Distinct(ws + [x])
  {
  }

  lemma DistinctCat(a: seq<BigInt>, b: seq<BigInt>)
    requires Distinct(a) && Distinct(b) && Among(a) !! Among(b)
    ensures Distinct(a + b)
  {
    forall i, j | 0 <= i < j < |a + b|
      ensures (a + b)[i] != (a + b)[j]
    {
      if i < |a| <= j {
        assert a[i] in Among(a) && b[j - |a|] in Among(b);
      }
    }
  }
}
