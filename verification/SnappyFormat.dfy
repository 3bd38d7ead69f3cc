/**
 The Snappy block format as its documentation describes it: a length header
 followed by chunks, each a literal or a back-reference.  `Expand` is the meaning
 of a chunk string; it knows nothing of buffers, cursors or hash tables.
 */
module SnappyFormat {
  import opened Bytes

  datatype Chunk =
    | Literal(data: seq<Byte>)
    | Copy(offset: nat, length: nat)

  datatype Parsed = Parsed(chunk: Chunk, size: nat)

  /** The first chunk of `src` and the number of bytes it occupies. */
  function ParseChunk(src: seq<Byte>): (r: Option<Parsed>)
    requires src != []
    ensures r.Some? ==> 0 < r.value.size <= |src|
  {
    var first: int := src[0];
    var tag, m := first % 4, first / 4;
    if tag == 0 then ParseLiteral(src, m)
    else if tag == 1 then
      if |src| < 2 then None
      else Some(Parsed(Copy((first / 32) * 256 + src[1], 4 + m % 8), 2))
    else
      var width := if tag == 2 then 2 else 4;
      if |src| < 1 + width then None
      else Some(Parsed(Copy(LittleEndian(src[1..1 + width]), 1 + m), 1 + width))
  }

  /** A literal chunk whose tag byte carries `m`: up to 60 bytes, or a separate length of `m - 59` bytes. */
  function ParseLiteral(src: seq<Byte>, m: nat): (r: Option<Parsed>)
    requires src != [] && m < 64
    ensures r.Some? ==> 0 < r.value.size <= |src|
  {
    var extra := if m < 60 then 0 else m - 59;
    if |src| < 1 + extra then None
    else
      var n := if m < 60 then m else LittleEndian(src[1..1 + extra]);
      if |src| < 1 + extra + n + 1 then None
      else Some(Parsed(Literal(src[1 + extra..1 + extra + n + 1]), 1 + extra + n + 1))
  }

  /** `out` extended by `length` bytes, each the byte `offset` places before it. */
  function ForwardCopy(out: seq<Byte>, offset: nat, length: nat): (r: seq<Byte>)
    requires 0 < offset <= |out|
    ensures |r| == |out| + length
    ensures r[..|out|] == out
  {
    if length == 0 then out
    else
      var p := ForwardCopy(out, offset, length - 1);
      p + [p[|p| - offset]]
  }

  function Apply(out: seq<Byte>, chunk: Chunk): (r: Option<seq<Byte>>)
    ensures r.Some? ==> out <= r.value
  {
    match chunk
    case Literal(data) => Some(out + data)
    case Copy(offset, length) =>
      if offset == 0 || |out| < offset then None else Some(ForwardCopy(out, offset, length))
  }

  /** The bytes that the chunk string `enc` yields when `out` has been produced already. */
  function Expand(enc: seq<Byte>, out: seq<Byte>): (r: Option<seq<Byte>>)
    ensures r.Some? ==> out <= r.value
    decreases |enc|
  {
    if enc == [] then Some(out)
    else
      var p := ParseChunk(enc);
      if p.None? then None
      else
        var next := Apply(out, p.value.chunk);
        if next.None? then None else Expand(enc[p.value.size..], next.value)
  }

  lemma ParseLiteralPrefix(a: seq<Byte>, b: seq<Byte>, m: nat)
    requires a != [] && m < 64
    requires ParseLiteral(a, m).Some?
    ensures ParseLiteral(a + b, m) == ParseLiteral(a, m)
  {
    var extra := if m < 60 then 0 else m - 59;
    assert (a + b)[1..1 + extra] == a[1..1 + extra];
    var n := if m < 60 then m else LittleEndian(a[1..1 + extra]);
    assert (a + b)[1 + extra..1 + extra + n + 1] == a[1 + extra..1 + extra + n + 1];
  }

  lemma ParseChunkPrefix(a: seq<Byte>, b: seq<Byte>)
    requires a != []
    requires ParseChunk(a).Some?
    ensures ParseChunk(a + b) == ParseChunk(a)
  {
    var first: int := a[0];
    assert (a + b)[0] == first;
    var tag, m := first % 4, first / 4;
    if tag == 0 {
      ParseLiteralPrefix(a, b, m);
    } else if tag != 1 {
      var width := if tag == 2 then 2 else 4;
      assert (a + b)[1..1 + width] == a[1..1 + width];
    }
  }

  /** Chunk strings compose: expanding a concatenation expands its parts in turn. */
  lemma {:induction false} ExpandConcat(a: seq<Byte>, b: seq<Byte>, out: seq<Byte>)
    requires Expand(a, out).Some?
    ensures Expand(a + b, out) == Expand(b, Expand(a, out).value)
    decreases |a|
  {
    if a == [] {
      assert a + b == b;
    } else {
      var p := ParseChunk(a).value;
      ParseChunkPrefix(a, b);
      assert (a + b)[p.size..] == a[p.size..] + b;
      ExpandConcat(a[p.size..], b, Apply(out, p.chunk).value);
    }
  }

  lemma ExpandOne(enc: seq<Byte>, out: seq<Byte>)
    requires enc != []
    requires ParseChunk(enc).Some? && ParseChunk(enc).value.size == |enc|
    ensures Expand(enc, out) == Apply(out, ParseChunk(enc).value.chunk)
  {
    assert enc[|enc|..] == [];
  }

  /** Back-references with one offset join end to end. */
  lemma {:induction false} ForwardCopyJoin(out: seq<Byte>, offset: nat, a: nat, b: nat)
    requires 0 < offset <= |out|
    ensures ForwardCopy(ForwardCopy(out, offset, a), offset, b) == ForwardCopy(out, offset, a + b)
  {
    if b > 0 {
      ForwardCopyJoin(out, offset, a, b - 1);
    }
  }

  /** `src[base..base + length]` repeats what stands `base - from` places earlier. */
  ghost predicate Repeats(src: seq<Byte>, from: nat, base: nat, length: nat)
  {
    from < base && base + length <= |src| &&
    forall k :: base <= k < base + length ==> src[k] == src[k - (base - from)]
  }

  /** Copying forward reproduces `src` as long as `src` repeats itself at distance `base - from`. */
  lemma {:induction false} ForwardCopyMatch(before: seq<Byte>, src: seq<Byte>, from: nat, base: nat, length: nat)
    requires Repeats(src, from, base, length)
    ensures ForwardCopy(before + src[..base], base - from, length) == before + src[..base + length]
  {
    if length > 0 {
      ForwardCopyMatch(before, src, from, base, length - 1);
      var p := before + src[..base + length - 1];
      assert p[|p| - (base - from)] == src[from + (length - 1)] == src[base + (length - 1)];
      assert src[..base + length] == src[..base + length - 1] + [src[base + length - 1]];
    }
  }

  /* ---- The length header ---- */

  /** The base-128 form of `v`, low group first, as `binary.PutUvarint` writes it. */
  function Uvarint(v: nat): (r: seq<Byte>)
    ensures r != []
  {
    if v < 128 then [v] else [128 + v % 128] + Uvarint(v / 128)
  }

  datatype Header = Header(value: nat, size: nat)

  /** `binary.Uvarint` from group number `group` on: at most ten bytes and 64 bits. */
  function ReadUvarint(src: seq<Byte>, group: nat): (r: Option<Header>)
    ensures r.Some? ==> 0 < r.value.size <= |src|
    decreases |src|
  {
    if src == [] then None
    else if src[0] < 128 then
      if group > 9 || (group == 9 && src[0] > 1) then None else Some(Header(src[0], 1))
    else
      var rest := ReadUvarint(src[1..], group + 1);
      if rest.None? then None
      else Some(Header(src[0] - 128 + 128 * rest.value.value, 1 + rest.value.size))
  }

  function Pow128(k: nat): (p: nat)
    ensures p >= 1
  {
    if k == 0 then 1 else 128 * Pow128(k - 1)
  }

  lemma {:induction false} UvarintRoundTrip(v: nat, group: nat, rest: seq<Byte>)
    requires group <= 8
    requires v < Pow128(9 - group)
    ensures ReadUvarint(Uvarint(v) + rest, group) == Some(Header(v, |Uvarint(v)|))
    ensures |Uvarint(v)| <= 9 - group
    decreases v
  {
    assert group == 8 ==> Pow128(9 - group) == 128 * Pow128(0) == 128;
    if v >= 128 && group < 8 {
      assert Pow128(9 - group) == 128 * Pow128(8 - group);
      hide Pow128;
      UvarintRoundTrip(v / 128, group + 1, rest);
      var enc := Uvarint(v) + rest;
      assert enc[0] == 128 + v % 128 && enc[1..] == Uvarint(v / 128) + rest;
    }
  }

  /** A length below 2^32 takes at most five header bytes and is read back exactly. */
  lemma UvarintHeader(v: nat, rest: seq<Byte>)
    requires v <= 0xffff_ffff
    ensures ReadUvarint(Uvarint(v) + rest, 0) == Some(Header(v, |Uvarint(v)|))
    ensures |Uvarint(v)| <= 5
  {
    assert Pow128(3) == 128 * 128 * 128;
    assert Pow128(6) == 128 * 128 * 128 * Pow128(3);
    assert Pow128(9) == 128 * 128 * 128 * Pow128(6);
    UvarintRoundTrip(v, 0, rest);
    UvarintShort(v);
  }

  lemma UvarintShort(v: nat)
    requires v <= 0xffff_ffff
    ensures |Uvarint(v)| <= 5
  {
    var a := v / 128;
    var b := a / 128;
    var c := b / 128;
    var d := c / 128;
    assert d < 128;
    if v >= 128 && a >= 128 && b >= 128 && c >= 128 {
      assert |Uvarint(d)| == 1;
      assert |Uvarint(c)| == 2;
      assert |Uvarint(b)| == 3;
    }
  }

  /**
   What a whole block denotes: a header giving the length, then chunks that expand
   to exactly that many bytes.
   */
  function DecodeBlock(src: seq<Byte>): (r: Option<seq<Byte>>)
  {
    var h := ReadUvarint(src, 0);
    if h.None? || h.value.value > 0xffff_ffff then None
    else
      var out := Expand(src[h.value.size..], []);
      if out.None? || |out.value| != h.value.value then None else out
  }
}
