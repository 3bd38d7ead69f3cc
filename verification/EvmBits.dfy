/**
 Powers of two and the bitwise operations on integers of any size and sign, a
 negative number standing for its infinite two's complement form.
 */
module EvmBits {
  function Pow(b: int, n: nat): (r: int)
  {
    if n == 0 then 1 else b * Pow(b, n - 1)
  }

  function Pow2(n: nat): (r: nat)
    ensures r >= 1
  {
    if n == 0 then 1 else 2 * Pow2(n - 1)
  }

  lemma Doubled(a: int, b: int)
    ensures (2 * a) * b == 2 * (a * b)
  {
  }

  lemma {:induction false} Pow2Sum(m: nat, n: nat)
    ensures Pow2(m + n) == Pow2(m) * Pow2(n)
  {
    if m > 0 {
      Pow2Sum(m - 1, n);
      assert Pow2(m + n) == 2 * Pow2(m - 1 + n) && Pow2(m) == 2 * Pow2(m - 1);
      hide Pow2;
      Doubled(Pow2(m - 1), Pow2(n));
    }
  }

  function Bit(x: int, i: nat): (b: int)
    ensures 0 <= b < 2
  {
    x / Pow2(i) % 2
  }

  lemma BitFirst(x: int)
    ensures Bit(x, 0) == x % 2
  {
    assert Pow2(0) == 1;
  }

  lemma BitNext(x: int, i: nat)
    ensures Bit(x, i + 1) == Bit(x / 2, i)
  {
    DivMod(x, 2, Pow2(i));
  }

  lemma AtLeastOnce(k: int, d: nat)
    requires k >= 1
    ensures k * d >= d
  {
  }

  lemma QuotientUnique(d: nat, q: int, r: int, q': int, r': int)
    requires q * d + r == q' * d + r' && 0 <= r < d && 0 <= r' < d
    ensures q == q' && r == r'
  {
    assert (q - q') * d == r' - r;
    if q > q' {
      AtLeastOnce(q - q', d);
    } else if q < q' {
      AtLeastOnce(q' - q, d);
    }
  }

  lemma DivUnique(x: int, d: nat, q: int, r: int)
    requires x == q * d + r && 0 <= r < d
    ensures x / d == q && x % d == r
  {
    QuotientUnique(d, x / d, x % d, q, r);
  }

  /** Dividing in two steps. */
  lemma DivMod(x: int, a: nat, b: nat)
    requires a >= 1 && b >= 1
    ensures a * b >= 1 && x / (a * b) == x / a / b && x % (a * b) == x / a % b * a + x % a
  {
    var q, r := x / a, x % a;
    var q', r' := q / b, q % b;
    AtLeastOnce(b, a);
    TwoSteps(x, a, b, q, r, q', r');
    DivUnique(x, a * b, q', r' * a + r);
  }

  lemma TwoSteps(x: int, a: nat, b: nat, q: int, r: int, q': int, r': int)
    requires x == q * a + r && q == q' * b + r' && 0 <= r < a && 0 <= r' < b
    ensures x == q' * (a * b) + (r' * a + r) && 0 <= r' * a + r < a * b
  {
    assert q * a == q' * (a * b) + r' * a;
    if r' < b - 1 {
      AtLeastOnce(b - 1 - r', a);
    }
    assert a * b == r' * a + a + (b - 1 - r') * a;
  }

  /** How far a number is from having all its bits alike. */
  function Size(x: int): (n: nat)
  {
    if x < 0 then -x - 1 else x
  }

  predicate Flat(x: int)
  {
    x == 0 || x == -1
  }

  function BitAnd(x: int, y: int): (r: int)
    decreases Size(x) + Size(y)
  {
    if Flat(x) && Flat(y) then if x == y then x else 0
    else 2 * BitAnd(x / 2, y / 2) + (x % 2) * (y % 2)
  }

  function BitOr(x: int, y: int): (r: int)
    decreases Size(x) + Size(y)
  {
    if Flat(x) && Flat(y) then if x == y then x else -1
    else 2 * BitOr(x / 2, y / 2) + (x % 2 + y % 2 - (x % 2) * (y % 2))
  }

  function BitXor(x: int, y: int): (r: int)
    decreases Size(x) + Size(y)
  {
    if Flat(x) && Flat(y) then if x == y then 0 else -1
    else 2 * BitXor(x / 2, y / 2) + (x % 2 + y % 2) % 2
  }

  function BitNot(x: int): (r: int)
  {
    -x - 1
  }

  /* ---- They work bit by bit ---- */

  lemma {:induction false} FlatBits(x: int, i: nat)
    requires Flat(x)
    ensures Bit(x, i) == -x
  {
    if i > 0 {
      BitNext(x, i - 1);
      FlatBits(x, i - 1);
    }
  }

  lemma {:induction false} BitsAnd(x: int, y: int, i: nat)
    ensures Bit(BitAnd(x, y), i) == Bit(x, i) * Bit(y, i)
    decreases Size(x) + Size(y)
  {
    if Flat(x) && Flat(y) {
      FlatBits(x, i);
      FlatBits(y, i);
      FlatBits(BitAnd(x, y), i);
    } else {
      assert BitAnd(x, y) / 2 == BitAnd(x / 2, y / 2) && BitAnd(x, y) % 2 == (x % 2) * (y % 2);
      hide Bit, BitAnd, Pow2;
      if i == 0 {
        BitFirst(x);
        BitFirst(y);
        BitFirst(BitAnd(x, y));
      } else {
        BitsAnd(x / 2, y / 2, i - 1);
        BitNext(x, i - 1);
        BitNext(y, i - 1);
        BitNext(BitAnd(x, y), i - 1);
      }
    }
  }

  lemma {:induction false} BitsOr(x: int, y: int, i: nat)
    ensures Bit(BitOr(x, y), i) == Bit(x, i) + Bit(y, i) - Bit(x, i) * Bit(y, i)
    decreases Size(x) + Size(y)
  {
    if Flat(x) && Flat(y) {
      FlatBits(x, i);
      FlatBits(y, i);
      FlatBits(BitOr(x, y), i);
    } else {
      assert BitOr(x, y) / 2 == BitOr(x / 2, y / 2) && BitOr(x, y) % 2 == x % 2 + y % 2 - (x % 2) * (y % 2);
      hide Bit, BitOr, Pow2;
      if i == 0 {
        BitFirst(x);
        BitFirst(y);
        BitFirst(BitOr(x, y));
      } else {
        BitsOr(x / 2, y / 2, i - 1);
        BitNext(x, i - 1);
        BitNext(y, i - 1);
        BitNext(BitOr(x, y), i - 1);
      }
    }
  }

  lemma XorHalves(x: int, y: int)
    requires !(Flat(x) && Flat(y))
    ensures BitXor(x, y) / 2 == BitXor(x / 2, y / 2) && BitXor(x, y) % 2 == (x % 2 + y % 2) % 2
  {
    var r, b := BitXor(x / 2, y / 2), (x % 2 + y % 2) % 2;
    assert BitXor(x, y) == 2 * r + b;
    hide *;
  }

  lemma XorFlat(x: int, y: int, i: nat)
    requires Flat(x) && Flat(y)
    ensures Bit(BitXor(x, y), i) == (Bit(x, i) + Bit(y, i)) % 2
  {
    hide Bit;
    FlatBits(x, i);
    FlatBits(y, i);
    FlatBits(BitXor(x, y), i);
  }

  lemma {:induction false} BitsXor(x: int, y: int, i: nat)
    ensures Bit(BitXor(x, y), i) == (Bit(x, i) + Bit(y, i)) % 2
    decreases Size(x) + Size(y)
  {
    if Flat(x) && Flat(y) {
      XorFlat(x, y, i);
    } else {
      XorHalves(x, y);
      hide *;
      if i == 0 {
        BitFirst(x);
        BitFirst(y);
        BitFirst(BitXor(x, y));
      } else {
        BitsXor(x / 2, y / 2, i - 1);
        BitNext(x, i - 1);
        BitNext(y, i - 1);
        BitNext(BitXor(x, y), i - 1);
      }
    }
  }

  /** Numbers below a power of two stay below it. */
  lemma {:induction false} BitsBounded(x: int, y: int, n: nat)
    requires 0 <= x < Pow2(n) && 0 <= y < Pow2(n)
    ensures 0 <= BitAnd(x, y) < Pow2(n) && 0 <= BitOr(x, y) < Pow2(n) && 0 <= BitXor(x, y) < Pow2(n)
  {
    if n > 0 && !(x == 0 && y == 0) {
      BitsBounded(x / 2, y / 2, n - 1);
      BitTable(x % 2, y % 2);
    }
  }

  lemma BitTable(a: int, b: int)
    requires 0 <= a < 2 && 0 <= b < 2
    ensures 0 <= a * b < 2 && 0 <= a + b - a * b < 2
  {
  }

  /* ---- Masks ---- */

  lemma {:induction false} AndZero(x: int)
    ensures BitAnd(x, 0) == 0
    decreases Size(x)
  {
    if !Flat(x) {
      AndZero(x / 2);
    }
  }

  lemma {:induction false} OrOnes(x: int)
    ensures BitOr(x, -1) == -1
    decreases Size(x)
  {
    if !Flat(x) {
      OrOnes(x / 2);
    }
  }

  /** A mask of ones keeps the low bits. */
  lemma {:induction false} AndMask(x: int, n: nat)
    ensures BitAnd(x, Pow2(n) - 1) == x % Pow2(n)
    decreases n
  {
    if n == 0 {
      AndZero(x);
    } else {
      var mask := Pow2(n) - 1;
      assert mask / 2 == Pow2(n - 1) - 1 && mask % 2 == 1;
      AndMask(x / 2, n - 1);
      DivMod(x, 2, Pow2(n - 1));
    }
  }

  /** The complement of such a mask sets the high bits. */
  lemma {:induction false} OrMask(x: int, n: nat)
    ensures BitOr(x, BitNot(Pow2(n) - 1)) == x % Pow2(n) - Pow2(n)
    decreases n
  {
    if n == 0 {
      OrOnes(x);
    } else {
      var mask := BitNot(Pow2(n) - 1);
      assert mask / 2 == BitNot(Pow2(n - 1) - 1) && mask % 2 == 0;
      OrMask(x / 2, n - 1);
      DivMod(x, 2, Pow2(n - 1));
    }
  }
}
