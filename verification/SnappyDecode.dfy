/**
 The Snappy block decoder: one loop over tag bytes that writes a buffer of exactly
 the announced length, with a byte-by-byte copy that may overlap itself.  Tag bits
 are written with `/` and `%`; `int` is taken to be 64 bits wide, so a literal
 length never overflows.
 */
module SnappyDecode {
  import opened Bytes
  import opened SnappyFormat

  const CODE_OK := 0
  const CODE_CORRUPT := 1

  /** The little-endian number of `width` bytes ending just before `s`. */
  function NumberBefore(src: seq<Byte>, s: nat, width: nat): (n: nat)
    requires width <= s <= |src|
  {
    LittleEndian(src[s - width..s])
  }

  datatype Reference = Reference(offset: nat, length: nat, next: nat)

  /** Where the chunk parsed at the front of `src[s..]` ends in `src`. */
  lemma ExpandStep(src: seq<Byte>, s: nat, out: seq<Byte>, next: nat, chunk: Chunk)
    requires s < next <= |src|
    requires ParseChunk(src[s..]) == Some(Parsed(chunk, next - s))
    ensures Apply(out, chunk).Some? ==>
              Expand(src[s..], out) == Expand(src[next..], Apply(out, chunk).value)
    ensures Apply(out, chunk).None? ==> Expand(src[s..], out).None?
  {
    hide ParseChunk, ForwardCopy;
    assert src[s..][next - s..] == src[next..];
  }

  /** Reads the header of the literal at `s`: the literal's length and where its bytes start. */
  method LiteralHeader(src: seq<Byte>, s: nat) returns (ok: bool, start: nat, length: nat)
    requires s < |src|
    requires src[s] % 4 == 0
    ensures !ok ==> ParseChunk(src[s..]).None?
    ensures ok ==> s < start <= |src| && 0 < length
    ensures ok && start + length <= |src| ==>
              ParseChunk(src[s..]) == Some(Parsed(Literal(src[start..start + length]), start + length - s))
    ensures ok && |src| < start + length ==> ParseChunk(src[s..]).None?
  {
    var first: int := src[s];
    var x := first / 4;
    assert src[s..][0] == first;
    if x < 60 {
      start := s + 1;
      assert ParseChunk(src[s..]) == ParseLiteral(src[s..], x);
    } else {
      var width := x - 59;
      start := s + 1 + width;
      if start > |src| {
        return false, start, 0;
      }
      assert src[s..][1..1 + width] == src[start - width..start];
      assert ParseChunk(src[s..]) == ParseLiteral(src[s..], x);
      x := NumberBefore(src, start, width);
    }
    ok, length := true, x + 1;
    if start + length <= |src| {
      assert src[s..][start - s..start - s + length] == src[start..start + length];
    }
  }

  /** Reads the back-reference at `s`, in any of its three forms. */
  method CopyHeader(src: seq<Byte>, s: nat) returns (r: Option<Reference>)
    requires s < |src|
    requires src[s] % 4 != 0
    ensures r.None? ==> ParseChunk(src[s..]).None?
    ensures r.Some? ==> s < r.value.next <= |src|
    ensures r.Some? ==>
              ParseChunk(src[s..]) == Some(Parsed(Copy(r.value.offset, r.value.length), r.value.next - s))
  {
    var first: int := src[s];
    assert src[s..][0] == first;
    if first % 4 == 1 {
      var next := s + 2;
      if next > |src| {
        return None;
      }
      assert src[s..][1] == src[next - 1];
      return Some(Reference(first / 32 * 256 + src[next - 1], 4 + first / 4 % 8, next));
    }
    var width := if first % 4 == 2 then 2 else 4;
    var next := s + 1 + width;
    if next > |src| {
      return None;
    }
    assert src[s..][1..1 + width] == src[next - width..next];
    return Some(Reference(NumberBefore(src, next, width), 1 + first / 4, next));
  }

  /** The forward copy: source and target ranges may overlap, and bytes just written are read again. */
  method CopyWithin(dst: array<Byte>, d: nat, offset: nat, length: nat)
    requires 0 < offset <= d && d + length <= dst.Length
    modifies dst
    ensures dst[..d + length] == ForwardCopy(old(dst[..d]), offset, length)
  {
    var k, end := d, d + length;
    while k != end
      invariant d <= k <= end
      invariant dst[..k] == ForwardCopy(old(dst[..d]), offset, k - d)
    {
      assert dst[..k][k - offset] == dst[k - offset];
      dst[k] := dst[k - offset];
      k := k + 1;
      assert dst[..k] == dst[..k - 1] + [dst[k - 1]];
    }
  }

  /** Copies literal bytes into place. */
  method CopyLiteral(dst: array<Byte>, d: nat, data: seq<Byte>)
    requires d + |data| <= dst.Length
    modifies dst
    ensures dst[..d + |data|] == old(dst[..d]) + data
  {
    forall i | 0 <= i < |data| {
      dst[d + i] := data[i];
    }
    assert forall i :: 0 <= i < d ==> dst[i] == old(dst[i]);
  }

  /** Nothing that starts with `out` and goes on with `enc` fills a buffer of `limit` bytes. */
  ghost predicate Hopeless(enc: seq<Byte>, out: seq<Byte>, limit: nat)
  {
    Expand(enc, out).None? || |Expand(enc, out).value| > limit
  }

  lemma ExpandFails(enc: seq<Byte>, out: seq<Byte>)
    requires enc != [] && ParseChunk(enc).None?
    ensures Expand(enc, out).None?
  {
  }

  lemma ExpandLiteral(src: seq<Byte>, s: nat, out: seq<Byte>, start: nat, length: nat)
    requires s < start && start + length <= |src|
    requires ParseChunk(src[s..]) == Some(Parsed(Literal(src[start..start + length]), start + length - s))
    ensures Expand(src[s..], out) == Expand(src[start + length..], out + src[start..start + length])
  {
    hide Expand, ParseChunk;
    ExpandStep(src, s, out, start + length, Literal(src[start..start + length]));
  }

  /** One literal chunk. */
  method StepLiteral(dst: array<Byte>, src: seq<Byte>, d: nat, s: nat) returns (ok: bool, d': nat, s': nat)
    requires s < |src| && d <= dst.Length
    requires src[s] % 4 == 0
    modifies dst
    ensures ok ==> s < s' <= |src| && d <= d' <= dst.Length
    ensures ok ==> Expand(src[s'..], dst[..d']) == Expand(src[s..], old(dst[..d]))
    ensures !ok ==> Hopeless(src[s..], old(dst[..d]), dst.Length)
  {
    hide Expand, ParseChunk;
    var found, start, length := LiteralHeader(src, s);
    if !found || length > |src| - start {
      ExpandFails(src[s..], dst[..d]);
      return false, d, s;
    }
    var data := src[start..start + length];
    ghost var out := dst[..d];
    ExpandLiteral(src, s, out, start, length);
    if length > dst.Length - d {
      return false, d, s;
    }
    CopyLiteral(dst, d, data);
    ok, d', s' := true, d + length, start + length;
    assert dst[..d'] == out + data;
  }

  /** One back-reference. */
  method StepCopy(dst: array<Byte>, src: seq<Byte>, d: nat, s: nat) returns (ok: bool, d': nat, s': nat)
    requires s < |src| && d <= dst.Length
    requires src[s] % 4 != 0
    modifies dst
    ensures ok ==> s < s' <= |src| && d <= d' <= dst.Length
    ensures ok ==> Expand(src[s'..], dst[..d']) == Expand(src[s..], old(dst[..d]))
    ensures !ok ==> Hopeless(src[s..], old(dst[..d]), dst.Length)
  {
    hide Expand, ParseChunk, ForwardCopy;
    var r := CopyHeader(src, s);
    if r.None? {
      ExpandFails(src[s..], dst[..d]);
      return false, d, s;
    }
    var Reference(offset, length, next) := r.value;
    ExpandStep(src, s, dst[..d], next, Copy(offset, length));
    if offset <= 0 || d < offset || length > dst.Length - d {
      return false, d, s;
    }
    CopyWithin(dst, d, offset, length);
    return true, d + length, next;
  }

  /**
   `decode`: success exactly when the chunk string expands to as many bytes as
   `dst` holds, and then `dst` holds those bytes.
   */
  method Decode(dst: array<Byte>, src: seq<Byte>) returns (code: int)
    modifies dst
    ensures code == CODE_OK || code == CODE_CORRUPT
    ensures code == CODE_OK <==> Expand(src, []).Some? && |Expand(src, []).value| == dst.Length
    ensures code == CODE_OK ==> dst[..] == Expand(src, []).value
  {
    var d, s := 0, 0;
    assert dst[..0] == [] && src[0..] == src;
    while s < |src|
      invariant 0 <= s <= |src| && 0 <= d <= dst.Length
      invariant Expand(src[s..], dst[..d]) == Expand(src, [])
    {
      var ok;
      if src[s] % 4 == 0 {
        ok, d, s := StepLiteral(dst, src, d, s);
      } else {
        ok, d, s := StepCopy(dst, src, d, s);
      }
      if !ok {
        return CODE_CORRUPT;
      }
    }
    assert src[s..] == [];
    if d != dst.Length {
      return CODE_CORRUPT;
    }
    assert dst[..d] == dst[..];
    return CODE_OK;
  }

  /**
   `Decode` of a whole block, allocating its own output: it succeeds exactly on the
   blocks of the format and returns what they denote.
   */
  method DecodeWhole(src: seq<Byte>) returns (r: Option<seq<Byte>>)
    ensures r == DecodeBlock(src)
  {
    var h := ReadUvarint(src, 0);
    if h.None? || h.value.value > 0xffff_ffff {
      return None;
    }
    var dst := new Byte[h.value.value];
    var code := Decode(dst, src[h.value.size..]);
    if code == CODE_OK {
      return Some(dst[..]);
    }
    return None;
  }
}
