/** Bytes, options and little-endian numbers shared by the codec modules. */
module Bytes {

  type Byte = b: int | 0 <= b < 256

  datatype Option<+T> = None | Some(value: T)

  /** The unsigned number denoted by `b`, least significant byte first. */
  function LittleEndian(b: seq<Byte>): (n: nat)
  {
    if b == [] then 0 else b[0] + 256 * LittleEndian(b[1..])
  }

  /** Two byte strings of one length denote the same number only if they are equal. */
  lemma {:induction false} LittleEndianInjective(a: seq<Byte>, b: seq<Byte>)
    requires |a| == |b|
    requires LittleEndian(a) == LittleEndian(b)
    ensures a == b
  {
    if a != [] {
      var x, y := LittleEndian(a[1..]), LittleEndian(b[1..]);
      assert a[0] + 256 * x == b[0] + 256 * y;
      assert a[0] == b[0] && x == y;
      LittleEndianInjective(a[1..], b[1..]);
      assert a == [a[0]] + a[1..] && b == [b[0]] + b[1..];
    }
  }

  lemma Reassociate<T>(a: seq<T>, b: seq<T>, c: seq<T>)
    ensures (a + b) + c == a + (b + c)
  {
  }

  /** Cutting a concatenation where its parts meet. */
  lemma CutParts(a: seq<Byte>, b: seq<Byte>, c: seq<Byte>)
    ensures a + b + c == a + (b + c)
    ensures (a + (b + c))[..|a|] == a
    ensures (a + (b + c))[|a|..|a| + |b|] == b
    ensures (a + (b + c))[|a| + |b|..] == c
  {
  }
}
