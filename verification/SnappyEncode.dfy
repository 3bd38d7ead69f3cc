/**
 The Snappy block encoder: a hash table of recent positions, a search that skips
 faster the longer it finds nothing, and chunk writers that store straight into a
 preallocated buffer.  Two things are proved of every run: what has been written
 so far expands to the input consumed so far, and it has stayed within 61/60 of
 that input, which is what keeps every store inside the buffer.
 */
module SnappyEncode {
  import opened Bytes
  import opened SnappyFormat

  const MAX_BLOCK_SIZE := 65536
  const INPUT_MARGIN := 15
  const MIN_NON_LITERAL_BLOCK_SIZE := 17
  const MAX_TABLE_SIZE := 16384

  /* ---- Chunk writers ---- */

  /** Stores `data` at `d`. */
  method Store(dst: array<Byte>, d: nat, data: seq<Byte>)
    requires d + |data| <= dst.Length
    modifies dst
    ensures dst[..d] == old(dst[..d])
    ensures dst[d..d + |data|] == data
  {
    forall i | 0 <= i < |data| {
      dst[d + i] := data[i];
    }
    assert forall i :: 0 <= i < d ==> dst[i] == old(dst[i]);
  }

  /** Tag and length bytes in front of a literal of `n` bytes. */
  function LiteralHead(n: nat): (head: seq<Byte>)
    requires 1 <= n <= 65536
    ensures |head| == if n <= 60 then 1 else if n <= 256 then 2 else 3
  {
    var last := n - 1;
    if last < 60 then [4 * last]
    else if last < 256 then [240, last]
    else [244, last % 256, last / 256]
  }

  /** Whatever its form, a literal head followed by the data parses as that literal. */
  lemma LiteralParses(lit: seq<Byte>)
    requires 1 <= |lit| <= 65536
    ensures var enc := LiteralHead(|lit|) + lit;
            ParseChunk(enc) == Some(Parsed(Literal(lit), |enc|))
  {
    var head := LiteralHead(|lit|);
    var src := head + lit;
    var m := if |lit| <= 60 then |lit| - 1 else if |lit| <= 256 then 60 else 61;
    assert src[0] == 4 * m;
    assert ParseChunk(src) == ParseLiteral(src, m);
    var extra := |head| - 1;
    assert src[1..1 + extra] == head[1..];
    if extra == 1 {
      assert head[1..] == [head[1]];
      assert LittleEndian([head[1]]) == head[1];
    } else if extra == 2 {
      assert head[1..] == [head[1], head[2]];
      assert head[1..][1..] == [head[2]];
      assert LittleEndian([head[2]]) == head[2];
    }
    assert src[1 + extra..1 + extra + |lit|] == lit;
  }

  lemma LiteralExpands(lit: seq<Byte>, out: seq<Byte>)
    requires 1 <= |lit| <= 65536
    ensures Expand(LiteralHead(|lit|) + lit, out) == Some(out + lit)
  {
    LiteralParses(lit);
    ExpandOne(LiteralHead(|lit|) + lit, out);
  }

  /** `emitLiteral`. */
  method EmitLiteral(dst: array<Byte>, d: nat, lit: seq<Byte>) returns (n: nat)
    requires 1 <= |lit| <= 65536
    requires d + |LiteralHead(|lit|)| + |lit| <= dst.Length
    modifies dst
    ensures n == |LiteralHead(|lit|)| + |lit|
    ensures dst[..d] == old(dst[..d])
    ensures dst[d..d + n] == LiteralHead(|lit|) + lit
  {
    var last := |lit| - 1;
    if last < 60 {
      Store(dst, d, [4 * last] + lit);
      n := 1 + |lit|;
    } else if last < 256 {
      Store(dst, d, [240, last] + lit);
      n := 2 + |lit|;
    } else {
      Store(dst, d, [244, last % 256, last / 256] + lit);
      n := 3 + |lit|;
    }
  }

  /** A copy of up to 64 bytes with a two-byte offset. */
  function Copy2(offset: nat, length: nat): (enc: seq<Byte>)
    requires 0 < offset < 65536 && 1 <= length <= 64
  {
    [4 * (length - 1) + 2, offset % 256, offset / 256]
  }

  /** A copy of four to eleven bytes with an eleven-bit offset. */
  function Copy1(offset: nat, length: nat): (enc: seq<Byte>)
    requires 0 < offset < 2048 && 4 <= length < 12
  {
    [offset / 256 * 32 + 4 * (length - 4) + 1, offset % 256]
  }

  /** The copies that `emitCopy` splits a match into; no piece is shorter than four bytes. */
  function CopyChunks(offset: nat, length: nat): (enc: seq<Byte>)
    requires 1 <= offset <= 65535 && 4 <= length
  {
    if length > 64 then
      var piece := if length >= 68 then 64 else 60;
      Copy2(offset, piece) + CopyChunks(offset, length - piece)
    else if length >= 12 || offset >= 2048 then Copy2(offset, length)
    else Copy1(offset, length)
  }

  /** A copy is always shorter than what it copies. */
  lemma {:induction false} CopyChunksShorter(offset: nat, length: nat)
    requires 1 <= offset <= 65535 && 4 <= length
    ensures 0 < |CopyChunks(offset, length)| < length
  {
    if length > 64 {
      CopyChunksShorter(offset, length - if length >= 68 then 64 else 60);
    }
  }

  lemma Copy2Parses(offset: nat, length: nat)
    requires 0 < offset < 65536 && 1 <= length <= 64
    ensures ParseChunk(Copy2(offset, length)) == Some(Parsed(Copy(offset, length), 3))
  {
    var src := Copy2(offset, length);
    assert src[1..3] == [offset % 256, offset / 256];
    assert src[1..3][1..] == [offset / 256];
    assert LittleEndian(src[1..3][1..]) == offset / 256;
  }

  lemma Copy1Parses(offset: nat, length: nat)
    requires 0 < offset < 2048 && 4 <= length < 12
    ensures ParseChunk(Copy1(offset, length)) == Some(Parsed(Copy(offset, length), 2))
  {
    var high, low, n := offset / 256, offset % 256, length - 4;
    var first := 32 * high + 4 * n + 1;
    assert Copy1(offset, length) == [first, low];
    TagOfCopy1(high, n, first);
    hide Copy1, ParseLiteral;
  }

  lemma TagOfCopy1(high: nat, n: nat, first: nat)
    requires high < 8 && n < 8 && first == 32 * high + 4 * n + 1
    ensures first < 256 && first % 4 == 1 && first / 32 == high && first / 4 % 8 == n
  {
    assert first / 4 == 8 * high + n;
  }

  /** Copies with one offset, expanded one after the other, make one longer copy. */
  lemma CopyThenCopy(a: seq<Byte>, b: seq<Byte>, offset: nat, m: nat, n: nat, out: seq<Byte>)
    requires 0 < offset <= |out|
    requires Expand(a, out) == Some(ForwardCopy(out, offset, m))
    requires Expand(b, ForwardCopy(out, offset, m)) == Some(ForwardCopy(ForwardCopy(out, offset, m), offset, n))
    ensures Expand(a + b, out) == Some(ForwardCopy(out, offset, m + n))
  {
    hide Expand, ForwardCopy;
    ExpandConcat(a, b, out);
    ForwardCopyJoin(out, offset, m, n);
  }

  /** However a match is split, the pieces together copy it. */
  lemma {:induction false} CopyChunksExpand(offset: nat, length: nat, out: seq<Byte>)
    requires 1 <= offset <= 65535 && 4 <= length
    requires offset <= |out|
    ensures Expand(CopyChunks(offset, length), out) == Some(ForwardCopy(out, offset, length))
    decreases length
  {
    hide Expand, ForwardCopy, ParseChunk;
    if length > 64 {
      var piece := if length >= 68 then 64 else 60;
      Copy2Parses(offset, piece);
      ExpandOne(Copy2(offset, piece), out);
      CopyChunksExpand(offset, length - piece, ForwardCopy(out, offset, piece));
      CopyThenCopy(Copy2(offset, piece), CopyChunks(offset, length - piece), offset, piece, length - piece, out);
    } else if length >= 12 || offset >= 2048 {
      Copy2Parses(offset, length);
      ExpandOne(Copy2(offset, length), out);
    } else {
      Copy1Parses(offset, length);
      ExpandOne(Copy1(offset, length), out);
    }
  }

  /** Stores `data` behind the `i` bytes already written at `d`. */
  method Append(dst: array<Byte>, d: nat, i: nat, data: seq<Byte>)
    requires d + i + |data| <= dst.Length
    modifies dst
    ensures dst[..d] == old(dst[..d])
    ensures dst[d..d + (i + |data|)] == old(dst[d..d + i]) + data
  {
    Store(dst, d + i, data);
    assert dst[..d] == dst[..d + i][..d] && old(dst[..d]) == old(dst[..d + i])[..d];
    assert dst[d..d + i] == dst[..d + i][d..];
  }

  /** The end of a copy: perhaps a piece of 60 bytes, then the shortest form that fits the rest. */
  method EmitLastCopies(dst: array<Byte>, d: nat, i: nat, offset: nat, length: nat) returns (i': nat)
    requires 1 <= offset <= 65535 && 4 <= length < 68
    requires d + i + |CopyChunks(offset, length)| <= dst.Length
    modifies dst
    ensures i' == i + |CopyChunks(offset, length)|
    ensures dst[..d] == old(dst[..d])
    ensures dst[d..d + i'] == old(dst[d..d + i]) + CopyChunks(offset, length)
    decreases length
  {
    if length > 64 {
      Append(dst, d, i, Copy2(offset, 60));
      Reassociate(old(dst[d..d + i]), Copy2(offset, 60), CopyChunks(offset, length - 60));
      i' := EmitLastCopies(dst, d, i + 3, offset, length - 60);
    } else if length >= 12 || offset >= 2048 {
      Append(dst, d, i, Copy2(offset, length));
      i' := i + 3;
    } else {
      Append(dst, d, i, Copy1(offset, length));
      i' := i + 2;
    }
  }

  /** `emitCopy`: pieces of 64 bytes while at least 68 are left. */
  method EmitCopy(dst: array<Byte>, d: nat, offset: nat, length: nat) returns (i: nat)
    requires 1 <= offset <= 65535 && 4 <= length <= 65535
    requires d + |CopyChunks(offset, length)| <= dst.Length
    modifies dst
    ensures i == |CopyChunks(offset, length)|
    ensures dst[..d] == old(dst[..d])
    ensures dst[d..d + i] == CopyChunks(offset, length)
  {
    i := 0;
    var rest := length;
    ghost var done: seq<Byte> := [];
    while rest >= 68
      invariant 4 <= rest <= length
      invariant |done| == i && d + i + |CopyChunks(offset, rest)| <= dst.Length
      invariant dst[..d] == old(dst[..d])
      invariant dst[d..d + i] == done
      invariant done + CopyChunks(offset, rest) == CopyChunks(offset, length)
    {
      Append(dst, d, i, Copy2(offset, 64));
      Reassociate(done, Copy2(offset, 64), CopyChunks(offset, rest - 64));
      i, rest, done := i + 3, rest - 64, done + Copy2(offset, 64);
    }
    i := EmitLastCopies(dst, d, i, offset, rest);
  }
}
