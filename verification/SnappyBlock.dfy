/**
 `encodeBlock` and `Encode`: the search for matches, the block loop, and the two
 guarantees a caller of the codec relies on, the round trip and the size bound.
 */
module SnappyBlock {
  import opened Bytes
  import opened SnappyFormat
  import opened SnappyEncode
  import SnappyDecode

  /** `enc` expands, behind `before`, to the first `upto` bytes of `src`. */
  ghost predicate Written(enc: seq<Byte>, before: seq<Byte>, src: seq<Byte>, upto: nat)
  {
    upto <= |src| && Expand(enc, before) == Some(before + src[..upto])
  }

  lemma ExpandThen(a: seq<Byte>, b: seq<Byte>, out: seq<Byte>, mid: seq<Byte>, end: seq<Byte>)
    requires Expand(a, out) == Some(mid) && Expand(b, mid) == Some(end)
    ensures Expand(a + b, out) == Some(end)
  {
    ExpandConcat(a, b, out);
  }

  lemma WrittenNothing(enc: seq<Byte>, before: seq<Byte>, src: seq<Byte>)
    requires enc == []
    ensures Written(enc, before, src, 0)
  {
    assert before + src[..0] == before;
  }

  lemma WrittenLiteral(enc: seq<Byte>, all: seq<Byte>, before: seq<Byte>, src: seq<Byte>, from: nat, lit: seq<Byte>)
    requires from <= |src| && 1 <= |lit| <= 65536 && lit <= src[from..]
    requires Written(enc, before, src, from)
    requires all == enc + (LiteralHead(|lit|) + lit)
    ensures Written(all, before, src, from + |lit|)
  {
    hide Expand;
    LiteralExpands(lit, before + src[..from]);
    assert before + src[..from] + lit == before + src[..from + |lit|];
    ExpandThen(enc, LiteralHead(|lit|) + lit, before, before + src[..from], before + src[..from + |lit|]);
  }

  lemma WrittenCopy(enc: seq<Byte>, all: seq<Byte>, before: seq<Byte>, src: seq<Byte>, candidate: nat, base: nat, length: nat)
    requires Repeats(src, candidate, base, length)
    requires base - candidate <= 65535 && 4 <= length
    requires Written(enc, before, src, base)
    requires all == enc + CopyChunks(base - candidate, length)
    ensures Written(all, before, src, base + length)
  {
    hide Expand;
    ExpandConcat(enc, CopyChunks(base - candidate, length), before);
    CopyChunksExpand(base - candidate, length, before + src[..base]);
    ForwardCopyMatch(before, src, candidate, base, length);
  }

  /* ---- Hashing ---- */

  function Load32(src: seq<Byte>, i: nat): (u: nat)
    requires i + 4 <= |src|
  {
    LittleEndian(src[i..i + 4])
  }

  function Load64(src: seq<Byte>, i: nat): (u: nat)
    requires i + 8 <= |src|
  {
    LittleEndian(src[i..i + 8])
  }

  function Pow2(n: nat): (p: nat)
    ensures p >= 1
  {
    if n == 0 then 1 else 2 * Pow2(n - 1)
  }

  /** The multiplicative hash of four bytes, in 32-bit arithmetic, reduced to a table index. */
  function Slot(u: nat, shift: nat): (h: nat)
    ensures h < MAX_TABLE_SIZE
  {
    u * 0x1e35a7bd % 0x1_0000_0000 / Pow2(shift) % MAX_TABLE_SIZE
  }

  lemma LoadsAgree(src: seq<Byte>, i: nat, j: nat)
    requires i < j && j + 4 <= |src|
    requires Load32(src, i) == Load32(src, j)
    ensures Repeats(src, i, j, 4)
  {
    LittleEndianInjective(src[i..i + 4], src[j..j + 4]);
    forall k | j <= k < j + 4
      ensures src[k] == src[k - (j - i)]
    {
      assert src[k] == src[j..j + 4][k - j] == src[i..i + 4][k - j];
    }
  }

  lemma LittleEndianHigh(b: seq<Byte>)
    requires |b| >= 4
    ensures LittleEndian(b) == LittleEndian(b[..4]) + 0x1_0000_0000 * LittleEndian(b[4..])
    ensures LittleEndian(b[..4]) < 0x1_0000_0000
  {
    var c := b[..4];
    assert c[1..][1..][1..][1..] == [];
    assert b[1..][1..][1..][1..] == b[4..];
    assert LittleEndian(c) == c[0] + 256 * LittleEndian(c[1..]);
    assert LittleEndian(c[1..]) == c[1] + 256 * LittleEndian(c[1..][1..]);
    assert LittleEndian(c[1..][1..]) == c[2] + 256 * LittleEndian(c[1..][1..][1..]);
    assert LittleEndian(c[1..][1..][1..]) == c[3];
    assert LittleEndian(b) == b[0] + 256 * LittleEndian(b[1..]);
    assert LittleEndian(b[1..]) == b[1] + 256 * LittleEndian(b[1..][1..]);
    assert LittleEndian(b[1..][1..]) == b[2] + 256 * LittleEndian(b[1..][1..][1..]);
    assert LittleEndian(b[1..][1..][1..]) == b[3] + 256 * LittleEndian(b[4..]);
  }

  /** The middle four bytes of an eight-byte load are a four-byte load one place on. */
  lemma LoadShifted(src: seq<Byte>, i: nat)
    requires i + 8 <= |src|
    ensures Load64(src, i) / 256 % 0x1_0000_0000 == Load32(src, i + 1)
  {
    var b := src[i..i + 8];
    assert LittleEndian(b) == b[0] + 256 * LittleEndian(b[1..]);
    LittleEndianHigh(b[1..]);
    hide LittleEndian;
    assert b[1..][..4] == src[i + 1..i + 5];
    assert LittleEndian(b) / 256 == LittleEndian(b[1..]);
  }

  /** Every position in the table lies before `s`. */
  ghost predicate Below(table: array<int>, s: nat)
    reads table
  {
    forall i :: 0 <= i < table.Length ==> 0 <= table[i] < s
  }

  /** The shift that leaves between eight and fourteen hash bits, by input size. */
  method TableShift(n: nat) returns (shift: nat)
    ensures 18 <= shift <= 24
  {
    shift := 24;
    var tableSize := 256;
    while tableSize < MAX_TABLE_SIZE && tableSize < n
      invariant 18 <= shift <= 24
      invariant tableSize == 256 * Pow2(24 - shift)
      decreases MAX_TABLE_SIZE - tableSize
    {
      assert Pow2(6) == 2 * 2 * 2 * Pow2(3);
      tableSize := tableSize * 2;
      shift := shift - 1;
    }
  }

  /* ---- One block ---- */

  /**
   The inner search loop: looks at fewer and fewer positions the longer nothing
   matches, and stops at a position whose four bytes occurred before.
   */
  method SearchMatch(src: seq<Byte>, table: array<int>, shift: nat, from: nat, firstHash: nat)
    returns (found: bool, s: nat, candidate: nat, nextHash: nat)
    requires 17 <= |src| <= MAX_BLOCK_SIZE && 1 <= from
    requires table.Length == MAX_TABLE_SIZE && Below(table, from)
    requires firstHash < MAX_TABLE_SIZE
    modifies table
    ensures found ==> from <= s < |src| - INPUT_MARGIN && Repeats(src, candidate, s, 4)
    ensures found ==> Below(table, s + 1) && nextHash < MAX_TABLE_SIZE
  {
    var skip, nextS := 32, from;
    nextHash := firstHash;
    while true
      invariant 32 <= skip && from <= nextS
      invariant nextHash < MAX_TABLE_SIZE
      invariant Below(table, nextS)
      decreases |src| - nextS
    {
      s := nextS;
      var bytesBetweenHashLookups := skip / 32;
      nextS := s + bytesBetweenHashLookups;
      skip := skip + bytesBetweenHashLookups;
      if nextS > |src| - INPUT_MARGIN {
        return false, s, 0, nextHash;
      }
      candidate := table[nextHash];
      table[nextHash] := s;
      nextHash := Slot(Load32(src, nextS), shift);
      if Load32(src, s) == Load32(src, candidate) {
        LoadsAgree(src, candidate, s);
        return true, s, candidate, nextHash;
      }
    }
  }

  /** `extendMatch`: the largest `k` for which `src[j..k]` repeats what starts at `i`. */
  method ExtendMatch(src: seq<Byte>, i: nat, j: nat) returns (k: nat)
    requires i < j <= |src|
    ensures j <= k && Repeats(src, i, j, k - j)
    ensures k < |src| ==> src[k] != src[k - (j - i)]
  {
    var m := i;
    k := j;
    while k < |src| && src[m] == src[k]
      invariant j <= k <= |src| && m == k - (j - i)
      invariant Repeats(src, i, j, k - j)
    {
      m, k := m + 1, k + 1;
    }
  }

  /** `emitCopy` behind the bytes `d0..d`. */
  method AppendCopy(dst: array<Byte>, d0: nat, d: nat, offset: nat, length: nat) returns (d': nat)
    requires 1 <= offset <= 65535 && 4 <= length <= 65535
    requires d0 <= d && d + |CopyChunks(offset, length)| <= dst.Length
    modifies dst
    ensures d' == d + |CopyChunks(offset, length)|
    ensures dst[..d0] == old(dst[..d0])
    ensures dst[d0..d'] == old(dst[d0..d]) + CopyChunks(offset, length)
  {
    var n := EmitCopy(dst, d, offset, length);
    d' := d + n;
    SamePrefix(old(dst[..d]), dst[..d], d0);
    assert dst[..d0] == dst[..d][..d0] && old(dst[..d0]) == old(dst[..d])[..d0];
    assert dst[d0..d] == dst[..d][d0..] && old(dst[d0..d]) == old(dst[..d])[d0..];
    assert dst[d0..d'] == dst[d0..d] + dst[d..d'];
  }

  /** `emitLiteral` behind the bytes `d0..d`. */
  method AppendLiteral(dst: array<Byte>, d0: nat, d: nat, lit: seq<Byte>) returns (d': nat)
    requires 1 <= |lit| <= 65536
    requires d0 <= d && d + |LiteralHead(|lit|)| + |lit| <= dst.Length
    modifies dst
    ensures d' == d + |LiteralHead(|lit|)| + |lit|
    ensures dst[..d0] == old(dst[..d0])
    ensures dst[d0..d'] == old(dst[d0..d]) + (LiteralHead(|lit|) + lit)
  {
    var n := EmitLiteral(dst, d, lit);
    d' := d + n;
    SamePrefix(old(dst[..d]), dst[..d], d0);
    assert dst[..d0] == dst[..d][..d0] && old(dst[..d0]) == old(dst[..d])[..d0];
    assert dst[d0..d] == dst[..d][d0..] && old(dst[d0..d]) == old(dst[..d])[d0..];
    assert dst[d0..d'] == dst[d0..d] + dst[d..d'];
  }

  lemma SamePrefix(a: seq<Byte>, b: seq<Byte>, k: nat)
    requires a == b && k <= |a|
    ensures a[..k] == b[..k] && a[k..] == b[k..]
  {
  }

  /** The output buffer can take a block of `n` bytes behind `d0`: a sixtieth more, and one. */
  ghost predicate Roomy(dst: array<Byte>, d0: nat, n: nat)
  {
    61 * n + 60 <= 60 * (dst.Length - d0)
  }

  /** Extends a four-byte match as far as it goes and writes it as copies. */
  method EmitMatch(dst: array<Byte>, src: seq<Byte>, d0: nat, d: nat, base: nat, candidate: nat, ghost before: seq<Byte>)
    returns (d': nat, s: nat)
    requires d0 <= d <= dst.Length && |src| <= MAX_BLOCK_SIZE && Roomy(dst, d0, |src|)
    requires Repeats(src, candidate, base, 4)
    requires Written(dst[d0..d], before, src, base)
    requires 60 * (d - d0) <= 61 * base + 60
    modifies dst
    ensures d0 <= d' <= dst.Length && dst[..d0] == old(dst[..d0])
    ensures base + 4 <= s <= |src|
    ensures Written(dst[d0..d'], before, src, s)
    ensures 60 * (d' - d0) <= 61 * s
  {
    hide Expand;
    s := ExtendMatch(src, candidate + 4, base + 4);
    CopyChunksShorter(base - candidate, s - base);
    ghost var enc := dst[d0..d];
    assert Repeats(src, candidate, base, s - base);
    d' := AppendCopy(dst, d0, d, base - candidate, s - base);
    WrittenCopy(enc, dst[d0..d'], before, src, candidate, base, s - base);
  }

  /**
   After a copy: records the positions `s - 1` and `s`, and tells whether `s` starts
   another match straight away.
   */
  method Rehash(src: seq<Byte>, table: array<int>, shift: nat, s: nat) returns (again: bool, candidate: nat, nextHash: nat)
    requires 1 <= s < |src| - INPUT_MARGIN
    requires table.Length == MAX_TABLE_SIZE && Below(table, s)
    modifies table
    ensures Below(table, s + 1) && nextHash < MAX_TABLE_SIZE
    ensures again ==> Repeats(src, candidate, s, 4)
  {
    var x := Load64(src, s - 1);
    LoadShifted(src, s - 1);
    table[Slot(x % 0x1_0000_0000, shift)] := s - 1;
    var slot := Slot(x / 256 % 0x1_0000_0000, shift);
    candidate := table[slot];
    table[slot] := s;
    again := x / 256 % 0x1_0000_0000 == Load32(src, candidate);
    nextHash := Slot(x / 65536 % 0x1_0000_0000, shift);
    if again {
      LoadsAgree(src, candidate, s);
    }
  }

  /**
   The inner copy loop: one match after another for as long as they follow each
   other immediately.  `more` is false when the input is nearly used up.
   */
  method EmitMatches(dst: array<Byte>, src: seq<Byte>, table: array<int>, shift: nat,
                     d0: nat, d: nat, from: nat, firstCandidate: nat, ghost before: seq<Byte>)
    returns (more: bool, d': nat, nextEmit: nat, nextHash: nat)
    requires d0 <= d <= dst.Length && |src| <= MAX_BLOCK_SIZE && Roomy(dst, d0, |src|)
    requires table.Length == MAX_TABLE_SIZE && Below(table, from + 1)
    requires Repeats(src, firstCandidate, from, 4)
    requires Written(dst[d0..d], before, src, from)
    requires 60 * (d - d0) <= 61 * from + 60
    modifies dst, table
    ensures d0 <= d' <= dst.Length && dst[..d0] == old(dst[..d0])
    ensures from < nextEmit <= |src|
    ensures Written(dst[d0..d'], before, src, nextEmit)
    ensures 60 * (d' - d0) <= 61 * nextEmit
    ensures more ==> Below(table, nextEmit + 1) && nextHash < MAX_TABLE_SIZE
  {
    var s, candidate := from, firstCandidate;
    d' := d;
    while true
      invariant from <= s <= |src| && d0 <= d' <= dst.Length && dst[..d0] == old(dst[..d0])
      invariant Below(table, s + 1)
      invariant Repeats(src, candidate, s, 4)
      invariant Written(dst[d0..d'], before, src, s)
      invariant 60 * (d' - d0) <= 61 * s + 60
      decreases |src| - s
    {
      d', s := EmitMatch(dst, src, d0, d', s, candidate, before);
      nextEmit := s;
      if s >= |src| - INPUT_MARGIN {
        return false, d', nextEmit, 0;
      }
      var again;
      again, candidate, nextHash := Rehash(src, table, shift, s);
      if !again {
        return true, d', nextEmit, nextHash;
      }
    }
  }

  /** Writes `src[from..to]` as a literal behind the bytes `d0..d`. */
  method EmitGap(dst: array<Byte>, src: seq<Byte>, d0: nat, d: nat, from: nat, to: nat, ghost before: seq<Byte>) returns (d': nat)
    requires d0 <= d <= dst.Length && |src| <= MAX_BLOCK_SIZE && Roomy(dst, d0, |src|)
    requires from < to <= |src|
    requires Written(dst[d0..d], before, src, from)
    requires 60 * (d - d0) <= 61 * from
    modifies dst
    ensures d0 <= d' <= dst.Length && dst[..d0] == old(dst[..d0])
    ensures Written(dst[d0..d'], before, src, to)
    ensures 60 * (d' - d0) <= 61 * to + 60
  {
    hide Expand;
    ghost var enc := dst[d0..d];
    var lit := src[from..to];
    assert lit <= src[from..];
    d' := AppendLiteral(dst, d0, d, lit);
    WrittenLiteral(enc, dst[d0..d'], before, src, from, lit);
  }

  /**
   `encodeBlock`: what it writes at `d0` expands to `src` and takes at most a
   sixtieth more space than `src`, plus one byte.
   */
  method EncodeBlock(dst: array<Byte>, d0: nat, src: seq<Byte>, ghost before: seq<Byte>) returns (d: nat)
    requires MIN_NON_LITERAL_BLOCK_SIZE <= |src| <= MAX_BLOCK_SIZE
    requires d0 <= dst.Length && Roomy(dst, d0, |src|)
    modifies dst
    ensures d0 <= d <= dst.Length && dst[..d0] == old(dst[..d0])
    ensures Written(dst[d0..d], before, src, |src|)
    ensures 60 * (d - d0) <= 61 * |src| + 60
  {
    hide Expand, Slot, Load32;
    var shift := TableShift(|src|);
    var table := new int[MAX_TABLE_SIZE](_ => 0);
    var nextEmit, s := 0, 1;
    var nextHash: nat := Slot(Load32(src, s), shift);
    d := d0;
    WrittenNothing(dst[d0..d0], before, src);
    var more := true;
    while more
      invariant 0 <= nextEmit <= |src| && d0 <= d <= dst.Length && dst[..d0] == old(dst[..d0])
      invariant more ==> s == nextEmit + 1 && Below(table, s) && nextHash < MAX_TABLE_SIZE
      invariant Written(dst[d0..d], before, src, nextEmit)
      invariant 60 * (d - d0) <= 61 * nextEmit
      decreases more, |src| - nextEmit
    {
      var candidate;
      more, s, candidate, nextHash := SearchMatch(src, table, shift, s, nextHash);
      if more {
        d := EmitGap(dst, src, d0, d, nextEmit, s, before);
        more, d, nextEmit, nextHash := EmitMatches(dst, src, table, shift, d0, d, s, candidate, before);
        s := nextEmit + 1;
      }
    }
    if nextEmit < |src| {
      d := EmitGap(dst, src, d0, d, nextEmit, |src|, before);
    }
  }

  /* ---- Whole inputs ---- */

  /** `MaxEncodedLen`: negative for inputs too large to encode. */
  function MaxEncodedLen(n: nat): (m: int)
  {
    if n > 0xffff_ffff then -1
    else if 32 + n + n / 6 > 0xffff_ffff then -1
    else 32 + n + n / 6
  }

  /** One block of the input, as a single literal when it is short. */
  method EncodePart(dst: array<Byte>, d0: nat, p: seq<Byte>, ghost before: seq<Byte>) returns (d: nat)
    requires 1 <= |p| <= MAX_BLOCK_SIZE
    requires d0 <= dst.Length && Roomy(dst, d0, |p|)
    modifies dst
    ensures d0 <= d <= dst.Length && dst[..d0] == old(dst[..d0])
    ensures Written(dst[d0..d], before, p, |p|)
    ensures 60 * (d - d0) <= 61 * |p| + 60
  {
    hide Expand;
    if |p| < MIN_NON_LITERAL_BLOCK_SIZE {
      WrittenNothing(dst[d0..d0], before, p);
      d := EmitGap(dst, p, d0, d0, 0, |p|, before);
    } else {
      d := EncodeBlock(dst, d0, p, before);
    }
  }

  lemma WrittenBlocks(enc: seq<Byte>, part: seq<Byte>, src: seq<Byte>, done: nat, p: seq<Byte>)
    requires Written(enc, [], src, done)
    requires p <= src[done..]
    requires Written(part, src[..done], p, |p|)
    ensures Written(enc + part, [], src, done + |p|)
  {
    hide Expand;
    assert [] + src[..done] == src[..done];
    assert [] + src[..done + |p|] == src[..done + |p|];
    assert src[..done] + p[..|p|] == src[..done + |p|];
    ExpandThen(enc, part, [], src[..done], src[..done + |p|]);
  }

  /** The part after `done` fits behind what the part before it took. */
  lemma RoomLeft(capacity: int, used: nat, n: nat, done: nat)
    requires done <= n && 6 * used <= 7 * done
    requires capacity >= 27 + n + n / 6
    ensures 61 * (n - done) + 60 <= 60 * (capacity - used)
  {
  }

  /** The block loop: every block but the last is full, and a full block stays within seven sixths. */
  method EncodeBlocks(dst: array<Byte>, h: nat, src: seq<Byte>) returns (d: nat)
    requires h <= dst.Length && 27 + |src| + |src| / 6 <= dst.Length - h
    modifies dst
    ensures h <= d <= dst.Length && dst[..h] == old(dst[..h])
    ensures Written(dst[h..d], [], src, |src|)
  {
    hide Expand;
    d := h;
    var done := 0;
    WrittenNothing(dst[h..h], [], src);
    while done < |src|
      invariant 0 <= done <= |src| && h <= d <= dst.Length
      invariant dst[..h] == old(dst[..h])
      invariant Written(dst[h..d], [], src, done)
      invariant done < |src| ==> 6 * (d - h) <= 7 * done
    {
      var size := if |src| - done > MAX_BLOCK_SIZE then MAX_BLOCK_SIZE else |src| - done;
      RoomLeft(dst.Length - h, d - h, |src|, done);
      d := EncodeNext(dst, h, d, src, done, size);
      done := done + size;
    }
  }

  method EncodeNext(dst: array<Byte>, h: nat, d: nat, src: seq<Byte>, done: nat, size: nat) returns (d': nat)
    requires h <= d <= dst.Length && 1 <= size <= MAX_BLOCK_SIZE && done + size <= |src|
    requires Roomy(dst, d, size)
    requires Written(dst[h..d], [], src, done)
    modifies dst
    ensures d <= d' <= dst.Length && dst[..h] == old(dst[..h])
    ensures Written(dst[h..d'], [], src, done + size)
    ensures 60 * (d' - d) <= 61 * size + 60
  {
    hide Expand;
    var p := src[done..done + size];
    ghost var enc := dst[h..d];
    d' := EncodePart(dst, d, p, src[..done]);
    SamePrefix(old(dst[..d]), dst[..d], h);
    assert dst[..h] == dst[..d][..h] && old(dst[..h]) == old(dst[..d])[..h];
    assert dst[h..d] == dst[..d][h..] && enc == old(dst[..d])[h..];
    assert dst[h..d'] == enc + dst[d..d'];
    WrittenBlocks(enc, dst[d..d'], src, done, p);
  }

  /**
   `Encode`: refuses exactly the inputs whose bound does not fit 32 bits; any other
   result fits `MaxEncodedLen` and denotes `src`.
   */
  method Encode(src: seq<Byte>) returns (r: Option<seq<Byte>>)
    ensures r.None? <==> MaxEncodedLen(|src|) < 0
    ensures r.Some? ==> |r.value| <= MaxEncodedLen(|src|)
    ensures r.Some? ==> DecodeBlock(r.value) == Some(src)
  {
    hide Expand, Uvarint, DecodeBlock;
    var n := MaxEncodedLen(|src|);
    if n < 0 {
      return None;
    }
    var header := Uvarint(|src|);
    UvarintShort(|src|);
    var dst := new Byte[n];
    Store(dst, 0, header);
    var h := |header|;
    assert dst[..h] == dst[0..h];
    var d := EncodeBlocks(dst, h, src);
    FinishBlock(dst[h..d], src, header);
    assert dst[..d] == header + dst[h..d];
    return Some(dst[..d]);
  }

  lemma FinishBlock(enc: seq<Byte>, src: seq<Byte>, header: seq<Byte>)
    requires |src| <= 0xffff_ffff && header == Uvarint(|src|)
    requires Written(enc, [], src, |src|)
    ensures DecodeBlock(header + enc) == Some(src)
  {
    hide Expand;
    UvarintHeader(|src|, enc);
    assert (header + enc)[|header|..] == enc;
    assert [] + src[..|src|] == src;
  }

  /** The codec is lossless: decoding an encoding gives the input back. */
  method RoundTrip(src: seq<Byte>) returns (ok: bool, out: seq<Byte>)
    ensures ok <==> MaxEncodedLen(|src|) >= 0
    ensures ok ==> out == src
  {
    var enc := Encode(src);
    if enc.None? {
      return false, [];
    }
    var dec := SnappyDecode.DecodeWhole(enc.value);
    return true, dec.value;
  }
}
