/**
 What the computing instructions mean: arithmetic on 256-bit words, signed through
 two's complement.
 */
module EvmArith {
  import opened Bytes
  import opened EvmOps
  import opened EvmBits

  const HALF := WORD / 2

  function Abs(x: int): (r: nat)
  {
    if x < 0 then -x else x
  }

  /** A word as a two's complement number, and a number as a word. */
  function Signed(w: Word): (x: int)
  {
    if w < HALF then w else w - WORD
  }

  function Wrap(x: int): (w: Word)
  {
    x % WORD
  }

  /** Division and remainder that truncate towards zero. */
  function Quotient(x: int, y: int): (q: int)
    requires y != 0
  {
    var q := Abs(x) / Abs(y);
    if (x < 0) == (y < 0) then q else -q
  }

  function Remainder(x: int, y: int): (r: int)
    requires y != 0
  {
    var r := Abs(x) % Abs(y);
    if x < 0 then -r else r
  }

  /** The low `n + 1` bits of a number as a two's complement number. */
  function SignedLow(x: int, n: nat): (r: int)
  {
    var low := x % Pow2(n + 1);
    if low < Pow2(n) then low else low - Pow2(n + 1)
  }

  function Flag(b: bool): (w: Word)
  {
    if b then 1 else 0
  }

  /** The word that a computing instruction leaves for its operands, the one on top of the stack first. */
  ghost function Result(op: Byte, a: Word, b: Word, c: Word): (w: Word)
  {
    if op == 0x01 then Wrap(a + b)
    else if op == 0x02 then Wrap(a * b)
    else if op == 0x03 then Wrap(a - b)
    else if op == 0x04 then if b == 0 then 0 else Wrap(a / b)
    else if op == 0x05 then if b == 0 then 0 else Wrap(Quotient(Signed(a), Signed(b)))
    else if op == 0x06 then if b == 0 then 0 else Wrap(a % b)
    else if op == 0x07 then if b == 0 then 0 else Wrap(Remainder(Signed(a), Signed(b)))
    else if op == 0x08 then if c == 0 then 0 else Wrap((a + b) % c)
    else if op == 0x09 then if c == 0 then 0 else Wrap(a * b % c)
    else if op == 0x0a then Wrap(Pow(a, b))
    else if op == 0x0b then if a < 31 then Wrap(SignedLow(b, 8 * a + 7)) else b
    else LogicResult(op, a, b)
  }

  ghost function LogicResult(op: Byte, a: Word, b: Word): (w: Word)
  {
    if op == 0x10 then Flag(a < b)
    else if op == 0x11 then Flag(a > b)
    else if op == 0x12 then Flag(Signed(a) < Signed(b))
    else if op == 0x13 then Flag(Signed(a) > Signed(b))
    else if op == 0x14 then Flag(a == b)
    else if op == 0x15 then Flag(a == 0)
    else if op == 0x16 then Wrap(BitAnd(a, b))
    else if op == 0x17 then Wrap(BitOr(a, b))
    else if op == 0x18 then Wrap(BitXor(a, b))
    else if op == 0x19 then WORD - 1 - a
    else if op == 0x1a then if a < 32 then b / Pow2(8 * (31 - a)) % 256 else 0
    else if op == 0x1b then Wrap(b * Pow2(a))
    else if op == 0x1c then Wrap(b / Pow2(a))
    else Wrap(Signed(b) / Pow2(a))
  }

  lemma WordIsPow2()
    ensures Pow2(64) == WORD64 && Pow2(255) == HALF && Pow2(256) == WORD
  {
    assert Pow2(1) == 2 && Pow2(8) == 256;
    hide *;
    PowSquared(8, 256);
    PowSquared(16, 0x1_0000);
    PowSquared(32, 0x1_0000_0000);
    PowSquared(64, WORD64);
    PowSquared(128, WORD64 * WORD64);
    Pow2Sum(1, 255);
  }

  lemma PowSquared(n: nat, p: nat)
    requires Pow2(n) == p
    ensures Pow2(2 * n) == p * p
  {
    Pow2Sum(n, n);
  }

  const WORD64 := 0x1_0000000000000000

  lemma BitwiseInRange(a: Word, b: Word)
    ensures Wrap(BitAnd(a, b)) == BitAnd(a, b) && Wrap(BitOr(a, b)) == BitOr(a, b) && Wrap(BitXor(a, b)) == BitXor(a, b)
  {
    hide *;
    WordIsPow2();
    BitsBounded(a, b, 256);
    WrapSmall(BitAnd(a, b));
    WrapSmall(BitOr(a, b));
    WrapSmall(BitXor(a, b));
  }

  lemma WrapSmall(x: int)
    requires 0 <= x < WORD
    ensures Wrap(x) == x
  {
  }

  lemma WrapMask(x: int)
    ensures BitAnd(x, WORD - 1) == Wrap(x)
  {
    WordIsPow2();
    AndMask(x, 256);
    hide Pow2, BitAnd;
  }

  /* ---- Shifts ---- */

  lemma MultipleWraps(x: int, k: int)
    ensures Wrap(x + k * WORD) == Wrap(x)
  {
    DivUnique(x + k * WORD, WORD, x / WORD + k, x % WORD);
  }

  /** Shifting by 256 or more leaves nothing. */
  lemma ShiftedOut(a: nat, b: Word)
    requires a >= 256
    ensures Wrap(b * Pow2(a)) == 0 && b / Pow2(a) == 0
  {
    hide *;
    var k := Pow2(a - 256);
    WordIsPow2();
    Pow2Sum(256, a - 256);
    AtLeastOnce(k, WORD);
    LeftOut(b, Pow2(a), k);
    RightOut(b, Pow2(a));
  }

  /** Or only the sign. */
  lemma SignedOut(x: int, n: nat)
    requires n >= 256 && -HALF <= x < HALF
    ensures x / Pow2(n) == if x < 0 then -1 else 0
  {
    hide *;
    WordIsPow2();
    Pow2Sum(256, n - 256);
    AtLeastOnce(Pow2(n - 256), WORD);
    SignOut(x, Pow2(n));
  }

  lemma LeftOut(b: Word, p: nat, k: nat)
    requires p == WORD * k
    ensures Wrap(b * p) == 0
  {
    hide *;
    assert b * p == 0 + (b * k) * WORD;
    MultipleWraps(0, b * k);
    WrapSmall(0);
  }

  lemma RightOut(b: Word, p: nat)
    requires p >= WORD
    ensures b / p == 0
  {
    DivUnique(b, p, 0, b);
  }

  lemma SignOut(x: int, p: nat)
    requires p >= WORD && -HALF <= x < HALF
    ensures x / p == if x < 0 then -1 else 0
  {
    if x < 0 {
      DivUnique(x, p, -1, x + p);
    } else {
      DivUnique(x, p, 0, x);
    }
  }

  /* ---- Sign extension ---- */

  /** What the masks compute. */
  lemma SignExtends(x: Word, n: nat)
    ensures SignedLow(x, n) ==
            if Bit(x, n) > 0 then BitOr(x, BitNot(Pow2(n) - 1)) else BitAnd(x, Pow2(n) - 1)
  {
    AndMask(x, n);
    OrMask(x, n);
    DivMod(x, Pow2(n), 2);
    assert Pow2(n + 1) == Pow2(n) * 2;
    hide BitOr, BitAnd, Pow2;
  }

  /* ---- Exponentiation ---- */

  lemma WrapMul(x: int, y: int)
    ensures Wrap(Wrap(x) * y) == Wrap(x * y)
  {
    var k := x / WORD;
    assert x == k * WORD + Wrap(x);
    assert x * y == Wrap(x) * y + (k * y) * WORD;
    MultipleWraps(Wrap(x) * y, k * y);
  }

  lemma WrapMulBoth(x: int, y: int)
    ensures Wrap(Wrap(x) * Wrap(y)) == Wrap(x * y)
  {
    WrapMul(x, Wrap(y));
    WrapMul(y, x);
    assert x * Wrap(y) == Wrap(y) * x && x * y == y * x;
    hide Wrap;
  }

  /** A product wraps to what its wrapped factors say. */
  lemma WrapProduct(x: int, y: int, u: int, v: int)
    requires Wrap(x) == Wrap(u) && Wrap(y) == Wrap(v)
    ensures Wrap(x * y) == Wrap(u * v)
  {
    hide *;
    WrapMulBoth(x, y);
    WrapMulBoth(u, v);
  }

  lemma WrapTwice(x: int)
    ensures Wrap(Wrap(x)) == Wrap(x)
  {
  }

  lemma PowStep(b: int, n: nat)
    ensures Pow(b, n) == if n == 0 then 1 else b * Pow(b, n - 1)
  {
  }

  lemma {:induction false} WrapPow(x: int, n: nat)
    ensures Wrap(Pow(Wrap(x), n)) == Wrap(Pow(x, n))
  {
    hide *;
    PowStep(x, n);
    PowStep(Wrap(x), n);
    if n > 0 {
      WrapPow(x, n - 1);
      WrapTwice(x);
      WrapProduct(Wrap(x), Pow(Wrap(x), n - 1), x, Pow(x, n - 1));
    }
  }

  lemma {:induction false} PowSquare(b: int, n: nat)
    ensures Pow(b, 2 * n) == Pow(b * b, n)
  {
    if n > 0 {
      PowSquare(b, n - 1);
      assert Pow(b, 2 * n) == b * (b * Pow(b, 2 * n - 2)) == (b * b) * Pow(b, 2 * (n - 1));
    }
  }

  /** What the loop keeps: the product of what is accumulated and what is still to be multiplied in. */
  ghost function Powered(result: int, base: int, n: nat): (w: Word)
  {
    Wrap(result * Pow(base, n))
  }

  /** One step of exponentiation by squaring. */
  lemma SquareStep(result: int, base: int, n: nat, bit: int)
    requires bit == 0 || bit == 1
    ensures Powered(if bit == 1 then Wrap(result * base) else result, Wrap(base * base), n) ==
            Powered(result, base, 2 * n + bit)
  {
    var result' := if bit == 1 then Wrap(result * base) else result;
    var r := if bit == 1 then result * base else result;
    var p := Pow(base * base, n);
    PowSquare(base, n);
    assert Pow(base, 2 * n + 1) == base * Pow(base, 2 * n);
    assert r * p == result * Pow(base, 2 * n + bit);
    assert Wrap(Wrap(result * base)) == Wrap(result * base);
    hide Wrap, Pow;
    WrapPow(base * base, n);
    WrapMulBoth(result', Pow(Wrap(base * base), n));
    WrapMulBoth(r, p);
  }

  lemma PoweredStart(base: int, n: nat)
    ensures Powered(1, base, Joined(Limbs(n))) == Wrap(Pow(base, n))
  {
    LimbsJoin(n);
  }

  lemma PoweredEnd(result: int, base: int, ws: seq<nat>)
    requires 0 <= result < WORD
    ensures Powered(result, base, Joined(ws[|ws|..])) == result
  {
    assert Pow(base, 0) == 1;
  }

  /** An exponent whose lowest `n` bits are `w`. */
  ghost function Exponent(w: nat, n: nat, rest: nat): (e: nat)
  {
    w + Pow2(n) * rest
  }

  lemma ExponentHalf(w: nat, n: nat, rest: nat)
    requires n > 0 && w < Pow2(n)
    ensures Exponent(w, n, rest) == 2 * Exponent(w / 2, n - 1, rest) + w % 2 && w / 2 < Pow2(n - 1)
  {
    assert Pow2(n) * rest == 2 * (Pow2(n - 1) * rest);
  }

  lemma ExponentEnd(w: nat, rest: nat)
    requires w < Pow2(0)
    ensures Exponent(w, 0, rest) == rest
  {
  }

  /** The cases of exponentiation that need no multiplication. */
  lemma PowShort(b: Word, n: nat)
    ensures n == 0 ==> Wrap(Pow(b, n)) == 1
    ensures n > 0 && b == 0 ==> Wrap(Pow(b, n)) == 0
    ensures n == 1 ==> Wrap(Pow(b, n)) == b
  {
    if n == 1 {
      assert Pow(b, 1) == b * Pow(b, 0);
    }
  }

  /** A number as 64-bit words, the lowest first, as big integers are kept. */
  function Limbs(x: nat): (ws: seq<nat>)
    ensures forall i :: 0 <= i < |ws| ==> ws[i] < WORD64
  {
    if x == 0 then [] else [x % WORD64] + Limbs(x / WORD64)
  }

  ghost function Joined(ws: seq<nat>): (x: nat)
  {
    if ws == [] then 0 else ws[0] + WORD64 * Joined(ws[1..])
  }

  lemma JoinedHead(ws: seq<nat>, k: nat)
    requires k < |ws|
    ensures Joined(ws[k..]) == Exponent(ws[k], 64, Joined(ws[k + 1..]))
  {
    WordIsPow2();
    assert ws[k..][1..] == ws[k + 1..];
    hide Pow2;
  }

  lemma {:induction false} LimbsJoin(x: nat)
    ensures Joined(Limbs(x)) == x
  {
    if x > 0 {
      LimbsJoin(x / WORD64);
      assert Limbs(x)[1..] == Limbs(x / WORD64);
    }
  }

  lemma {:induction false} LimbAt(x: nat, i: nat)
    ensures x / Pow2(64 * i) % WORD64 == if i < |Limbs(x)| then Limbs(x)[i] else 0
  {
    if x == 0 {
      DivUnique(0, Pow2(64 * i), 0, 0);
    } else if i > 0 {
      LimbAt(x / WORD64, i - 1);
      LimbShift(x, i);
      hide Pow2;
    }
  }

  lemma LimbShift(x: nat, i: nat)
    requires i > 0
    ensures x / Pow2(64 * i) == x / WORD64 / Pow2(64 * (i - 1))
  {
    hide *;
    WordIsPow2();
    Pow2Sum(64, 64 * (i - 1));
    DivInSteps(x, WORD64, Pow2(64 * (i - 1)));
  }

  /** A byte of a number lies within one of its 64-bit words. */
  lemma ByteInLimb(x: nat, i: nat, s: nat)
    requires s <= 56
    ensures x / Pow2(64 * i + s) % 256 == x / Pow2(64 * i) % WORD64 / Pow2(s) % 256
  {
    BytePowers(i, s);
    var p, a, b := Pow2(64 * i), Pow2(s), Pow2(56 - s);
    hide Pow2;
    DivInSteps(x, p, a);
    ByteOf(x / p, a, b);
  }

  lemma DivInSteps(x: int, p: nat, a: nat)
    requires p >= 1 && a >= 1
    ensures p * a >= 1 && x / (p * a) == x / p / a
  {
    DivMod(x, p, a);
  }

  lemma ByteOf(y: nat, a: nat, b: nat)
    requires a >= 1 && b >= 1 && a * (256 * b) == WORD64
    ensures y % WORD64 / a % 256 == y / a % 256
  {
    ModDiv(y, a, 256 * b);
    ModMod(y / a, 256, b);
  }

  lemma BytePowers(i: nat, s: nat)
    requires s <= 56
    ensures Pow2(64 * i + s) == Pow2(64 * i) * Pow2(s) && Pow2(s) * (256 * Pow2(56 - s)) == WORD64
  {
    Pow2Sum(64 * i, s);
    Pow2Sum(s, 64 - s);
    Pow2Sum(8, 56 - s);
    WordIsPow2();
    assert Pow2(8) == 256;
    hide Pow2;
  }

  lemma ModDiv(y: nat, a: nat, c: nat)
    requires a >= 1 && c >= 1
    ensures a * c >= 1 && y % (a * c) / a == y / a % c
  {
    DivMod(y, a, c);
    DivUnique(y % (a * c), a, y / a % c, y % a);
  }

  lemma ModMod(z: nat, a: nat, b: nat)
    requires a >= 1 && b >= 1
    ensures a * b >= 1 && z % (a * b) % a == z % a
  {
    DivMod(z, a, b);
    DivUnique(z % (a * b), a, z / a % b, z % a);
  }
}
