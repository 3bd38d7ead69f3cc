/** The three ways out of an encoder buffer. */
module RlpWriters {
  import opened Bytes
  import opened RlpFormat
  import opened RlpEncbuf

  /** What the whole buffer stands for. */
  ghost predicate Complete(b: Buffer)
  {
    Ordered(b.str, 0, b.heads) && b.headSize == HeadTotal(b.heads)
  }

  ghost function Woven(b: Buffer): (enc: seq<Byte>)
    requires Complete(b)
  {
    Weave(b.str, 0, b.heads)
  }

  /** The part of the encoding not yet written, when `i` headers and `pos` bytes of string data are out. */
  ghost predicate InProgress(b: Buffer, i: nat, pos: nat)
  {
    i <= |b.heads| && pos <= |b.str| && Ordered(b.str[pos..], pos, b.heads[i..])
  }

  ghost function Rest(b: Buffer, i: nat, pos: nat): (enc: seq<Byte>)
    requires InProgress(b, i, pos)
  {
    Weave(b.str[pos..], pos, b.heads[i..])
  }

  lemma RestAtStart(b: Buffer)
    requires Complete(b)
    ensures InProgress(b, 0, 0) && Rest(b, 0, 0) == Woven(b)
  {
    assert b.str[0..] == b.str && b.heads[0..] == b.heads;
  }

  /** The next header: string data up to it, the header, and the rest. */
  lemma RestStep(b: Buffer, i: nat, pos: nat)
    requires InProgress(b, i, pos) && i < |b.heads|
    ensures pos <= b.heads[i].offset <= |b.str|
    ensures InProgress(b, i + 1, b.heads[i].offset)
    ensures InProgress(b, i, b.heads[i].offset)
    ensures Rest(b, i, pos) == b.str[pos..b.heads[i].offset] + Rest(b, i, b.heads[i].offset)
    ensures Rest(b, i, b.heads[i].offset) == HeadBytes(b.heads[i]) + Rest(b, i + 1, b.heads[i].offset)
  {
    hide HeadBytes;
    var h := b.heads[i];
    var str := b.str[pos..];
    assert b.heads[i..] == [h] + b.heads[i + 1..];
    WeaveStep(str, pos, h, b.heads[i + 1..]);
    assert str[h.offset - pos..] == b.str[h.offset..];
    assert str[..h.offset - pos] == b.str[pos..h.offset];
    WeaveHeadFirst(b.str[h.offset..], h.offset, h, b.heads[i + 1..]);
  }

  lemma RestEnd(b: Buffer, pos: nat)
    requires pos <= |b.str|
    ensures InProgress(b, |b.heads|, pos)
    ensures Rest(b, |b.heads|, pos) == b.str[pos..]
  {
  }

  /** `toWriter`, to a writer that takes everything: `out` is what it has been given. */
  method ToWriter(b: Buffer) returns (out: seq<Byte>)
    requires Complete(b)
    ensures out == Woven(b)
  {
    hide Weave, Ordered, Head;
    out := [];
    var strpos: nat := 0;
    RestAtStart(b);
    for i := 0 to |b.heads|
      invariant InProgress(b, i, strpos)
      invariant out + Rest(b, i, strpos) == Woven(b)
    {
      RestStep(b, i, strpos);
      var head := b.heads[i];
      if head.offset - strpos > 0 {
        out := out + b.str[strpos..head.offset];
        strpos := head.offset;
      }
      out := out + Head(0xC0, head.size);
    }
    RestEnd(b, strpos);
    if strpos < |b.str| {
      out := out + b.str[strpos..];
    }
  }

  /** `toBytes`: a buffer of exactly the right size is filled from front to back. */
  method ToBytes(b: Buffer) returns (enc: seq<Byte>)
    requires Complete(b)
    ensures enc == Woven(b)
  {
    hide Weave, Ordered, Head;
    WeaveLength(b.str, 0, b.heads);
    var out := new Byte[|b.str| + b.headSize];
    var strpos: nat, pos: nat := 0, 0;
    RestAtStart(b);
    for i := 0 to |b.heads|
      invariant InProgress(b, i, strpos) && pos <= out.Length
      invariant out[..pos] + Rest(b, i, strpos) == Woven(b)
    {
      RestStep(b, i, strpos);
      var head := b.heads[i];
      ghost var done := out[..pos];
      ghost var tail := Rest(b, i + 1, head.offset);
      var before, h := b.str[strpos..head.offset], Head(0xC0, head.size);
      Reassociate(before, h, tail);
      Reassociate(done, before + h, tail);
      pos := Fill(out, pos, before);
      strpos := head.offset;
      pos := Fill(out, pos, h);
      Reassociate(done, before, h);
    }
    RestEnd(b, strpos);
    pos := Fill(out, pos, b.str[strpos..]);
    enc := out[..];
    assert out[..pos] == enc;
  }

  /** Copies `data` to `pos`. */
  method Fill(out: array<Byte>, pos: nat, data: seq<Byte>) returns (next: nat)
    requires pos + |data| <= out.Length
    modifies out
    ensures next == pos + |data|
    ensures out[..next] == old(out[..pos]) + data
  {
    next := pos + |data|;
    forall i | 0 <= i < |data| {
      out[pos + i] := data[i];
    }
    assert forall i :: 0 <= i < pos ==> out[i] == old(out[i]);
  }

  /** Encoding into a fresh buffer leaves it complete, and it stands for the recursive encoding. */
  method EncodeToBuffer(item: Item) returns (b: Buffer)
    ensures Complete(b) && Woven(b) == Encode(item)
  {
    var eb := new Encbuf();
    eb.EncodeItem(item);
    WeaveEmit(item, 0);
    ghost var e := Emit(item, 0);
    assert [] + e.str == e.str && [] + e.heads == e.heads;
    b := Buffer(eb.str, eb.lheads, eb.lhsize);
  }

  /** `EncodeToBytes` and `Encode` to a writer give the same bytes: the recursive encoding. */
  method EncodeBoth(item: Item) returns (bytes: seq<Byte>, written: seq<Byte>)
    ensures bytes == written == Encode(item)
  {
    var b := EncodeToBuffer(item);
    bytes := ToBytes(b);
    written := ToWriter(b);
  }

  lemma TakePiece(out: seq<Byte>, piece: seq<Byte>, n: nat, rest: seq<Byte>)
    requires n <= |piece|
    ensures out + (piece + rest) == (out + piece[..n]) + (piece[n..] + rest)
    ensures n == |piece| ==> piece[n..] + rest == [] + rest
  {
    assert piece == piece[..n] + piece[n..];
  }

  /**
   `EncReader`: hands out the encoding in pieces of whatever size is asked for.
   An empty `piece` stands for none; `buf` is dropped at the end of the data.
   */
  class EncReader {
    var buf: Buffer
    var open: bool
    var lhpos: nat
    var strpos: nat
    var piece: seq<Byte>

    ghost predicate Valid()
      reads this
    {
      if open then InProgress(buf, lhpos, strpos) else piece == []
    }

    /** What is still to be read. */
    ghost function Remaining(): (r: seq<Byte>)
      requires Valid()
      reads this
    {
      if open then piece + Rest(buf, lhpos, strpos) else []
    }

    constructor (b: Buffer)
      requires Complete(b)
      ensures Valid() && Remaining() == Woven(b)
    {
      buf, open, lhpos, strpos, piece := b, true, 0, 0, [];
      new;
      RestAtStart(b);
      assert [] + Woven(b) == Woven(b);
    }

    /** `next`: makes sure there is a piece, unless everything has been handed out. */
    method Next()
      requires Valid()
      modifies this`piece, this`lhpos, this`strpos
      ensures Valid() && Remaining() == old(Remaining())
      ensures piece == [] ==> Remaining() == []
    {
      hide Weave, Ordered, Head;
      if !open || piece != [] {
        return;
      }
      ghost var rest := Rest(buf, lhpos, strpos);
      assert [] + rest == rest;
      if lhpos < |buf.heads| {
        RestStep(buf, lhpos, strpos);
        var head := buf.heads[lhpos];
        if head.offset - strpos > 0 {
          piece := buf.str[strpos..head.offset];
          strpos := head.offset;
        } else {
          assert buf.str[strpos..head.offset] == [];
          lhpos := lhpos + 1;
          piece := Head(0xC0, head.size);
        }
      } else {
        RestEnd(buf, strpos);
        if strpos < |buf.str| {
          piece := buf.str[strpos..];
          strpos := |buf.str|;
          RestEnd(buf, strpos);
        }
      }
    }

    /** `Read`: the next `n` bytes, or all that is left together with end-of-file. */
    method Read(n: nat) returns (out: seq<Byte>, eof: bool)
      requires Valid()
      modifies this
      ensures Valid() && old(Remaining()) == out + Remaining()
      ensures eof <==> |old(Remaining())| <= n
      ensures if eof then Remaining() == [] else |out| == n
    {
      hide Rest, Weave, Ordered;
      ghost var all := Remaining();
      out := [];
      while true
        invariant Valid() && all == out + Remaining() && |out| <= n
        decreases |Remaining()|
      {
        Next();
        if piece == [] {
          open := false;
          return out, true;
        }
        var nn := if |piece| < n - |out| then |piece| else n - |out|;
        ghost var rest := Rest(buf, lhpos, strpos);
        assert open;
        TakePiece(out, piece, nn, rest);
        out := out + piece[..nn];
        if nn < |piece| {
          piece := piece[nn..];
          return out, false;
        }
        piece := [];
      }
    }
  }
}
