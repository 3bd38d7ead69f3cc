/**
 The slice splitter: it reads one header and cuts the input there.  Splitting
 accepts exactly the canonical headers, so cutting and wrapping are inverse.
 */
module RlpRaw {
  import opened Bytes
  import opened RlpFormat

  datatype Kind = Single | String | ListKind

  datatype Error = UnexpectedEof | CanonSize | ValueTooLarge | ExpectedString | ExpectedList

  datatype Result<+T> = Ok(value: T) | Err(error: Error)

  datatype Tag = Tag(kind: Kind, tagSize: nat, contentSize: nat)

  /** `readSize`: the separate length of a long string or list. */
  function ReadSize(b: seq<Byte>, slen: nat): (r: Result<nat>)
    requires 1 <= slen <= 8
  {
    if slen > |b| then Err(UnexpectedEof)
    else
      var s := Number(b[..slen]);
      if s < 56 || b[0] == 0 then Err(CanonSize) else Ok(s)
  }

  /** `readKind`. */
  function ReadKind(buf: seq<Byte>): (r: Result<Tag>)
    ensures r.Ok? ==> 0 < r.value.tagSize + r.value.contentSize <= |buf|
    ensures r.Ok? && r.value.kind != Single ==> r.value.tagSize > 0
  {
    if buf == [] then Err(UnexpectedEof)
    else
      var b: int := buf[0];
      if b < 0x80 then Ok(Tag(Single, 0, 1))
      else if b < 0xB8 then
        if b == 0x81 && |buf| > 1 && buf[1] < 128 then Err(CanonSize)
        else Within(buf, Tag(String, 1, b - 0x80))
      else if b < 0xC0 then LongKind(buf, String, b - 0xB7)
      else if b < 0xF8 then Within(buf, Tag(ListKind, 1, b - 0xC0))
      else LongKind(buf, ListKind, b - 0xF7)
  }

  function LongKind(buf: seq<Byte>, kind: Kind, slen: nat): (r: Result<Tag>)
    requires buf != [] && 1 <= slen <= 8
    ensures r.Ok? ==> r.value.tagSize > 0 && r.value.tagSize + r.value.contentSize <= |buf| && r.value.kind == kind
  {
    match ReadSize(buf[1..], slen)
    case Err(e) => Err(e)
    case Ok(size) => Within(buf, Tag(kind, slen + 1, size))
  }

  /** Rejects values larger than the input. */
  function Within(buf: seq<Byte>, tag: Tag): (r: Result<Tag>)
  {
    if tag.tagSize + tag.contentSize > |buf| then Err(ValueTooLarge) else Ok(tag)
  }

  datatype Parts = Parts(kind: Kind, content: seq<Byte>, rest: seq<Byte>)

  /** `Split`. */
  function Split(b: seq<Byte>): (r: Result<Parts>)
    ensures r.Ok? ==> |r.value.rest| < |b| && |r.value.content| + |r.value.rest| <= |b|
    ensures r.Ok? && r.value.kind == ListKind ==> |r.value.content| < |b|
  {
    match ReadKind(b)
    case Err(e) => Err(e)
    case Ok(t) =>
      Ok(Parts(t.kind, b[t.tagSize..t.tagSize + t.contentSize], b[t.tagSize + t.contentSize..]))
  }

  datatype Cut = Cut(content: seq<Byte>, rest: seq<Byte>)

  function SplitString(b: seq<Byte>): (r: Result<Cut>)
  {
    match Split(b)
    case Err(e) => Err(e)
    case Ok(p) => if p.kind == ListKind then Err(ExpectedString) else Ok(Cut(p.content, p.rest))
  }

  /* ---- Splitting inverts wrapping ---- */

  /** Content that a value of this kind may have. */
  predicate Allowed(kind: Kind, content: seq<Byte>)
  {
    var small := |content| == 1 && content[0] < 128;
    match kind
    case Single => small
    case String => !small
    case ListKind => true
  }

  /** The encoding of a value from its kind and content. */
  function Wrap(kind: Kind, content: seq<Byte>): (b: seq<Byte>)
  {
    match kind
    case Single => content
    case String => Head(0x80, |content|) + content
    case ListKind => Head(0xC0, |content|) + content
  }

  /** A header with a separate length is read back, whatever follows it. */
  lemma ReadLongHead(base: nat, n: nat, rest: seq<Byte>)
    requires (base == 0x80 || base == 0xC0) && 56 <= n < LIMIT
    ensures var h := Head(base, n);
            1 <= |h| - 1 <= 8 && h[0] == base + 55 + (|h| - 1) && ReadSize((h + rest)[1..], |h| - 1) == Ok(n)
  {
    var size := BigEndian(n);
    BigEndianEight(n);
    NumberOfBigEndian(n);
    var h := Head(base, n);
    assert h == [h[0]] + size;
    hide Number, BigEndian, Head;
    assert (h + rest)[1..] == size + rest;
    assert (size + rest)[..|size|] == size;
  }

  lemma ReadKindWrap(kind: Kind, content: seq<Byte>, rest: seq<Byte>)
    requires kind != Single && Allowed(kind, content) && |content| < LIMIT
    ensures var h := Head(if kind == String then 0x80 else 0xC0, |content|);
            ReadKind(h + (content + rest)) == Ok(Tag(kind, |h|, |content|))
  {
    var base := if kind == String then 0x80 else 0xC0;
    var h := Head(base, |content|);
    var buf := h + (content + rest);
    if |content| >= 56 {
      ReadLongHead(base, |content|, content + rest);
      hide Head, ReadSize;
      assert buf[0] == h[0];
    } else {
      assert h == [base + |content|];
      assert |content| > 0 ==> buf[1] == content[0];
    }
  }

  /** Splitting a wrapped value gives its kind and content back. */
  lemma SplitWrap(kind: Kind, content: seq<Byte>, rest: seq<Byte>)
    requires Allowed(kind, content) && |content| < LIMIT
    ensures Split(Wrap(kind, content) + rest) == Ok(Parts(kind, content, rest))
  {
    var buf := Wrap(kind, content) + rest;
    if kind == Single {
      assert buf[0..1] == content && buf[1..] == rest;
    } else {
      var h := Head(if kind == String then 0x80 else 0xC0, |content|);
      ReadKindWrap(kind, content, rest);
      hide Head, ReadKind;
      CutParts(h, content, rest);
    }
  }

  /** The header in front of `b` is the canonical one for the size it announces. */
  lemma LongHeadIsCanonical(buf: seq<Byte>, base: nat, slen: nat, size: nat)
    requires base == 0x80 || base == 0xC0
    requires buf != [] && 1 <= slen <= 8 && buf[0] == base + 55 + slen
    requires ReadSize(buf[1..], slen) == Ok(size) && size < LIMIT
    ensures 1 + slen <= |buf| && buf[..1 + slen] == Head(base, size)
  {
    var digits := buf[1..][..slen];
    assert digits[0] == buf[1..][0];
    BigEndianOfNumber(digits);
    assert buf[..1 + slen] == [buf[0]] + digits;
  }

  /** Whatever splits was wrapped: the splitter accepts nothing but canonical encodings. */
  lemma SplitIsWrapped(b: seq<Byte>)
    requires |b| < LIMIT
    requires Split(b).Ok?
    ensures var p := Split(b).value;
            Allowed(p.kind, p.content) && b == Wrap(p.kind, p.content) + p.rest
  {
    var t := ReadKind(b).value;
    var p := Split(b).value;
    assert b == b[..t.tagSize] + p.content + p.rest;
    hide ReadKind, ReadSize;
    if t.kind != Single {
      var base := if t.kind == String then 0x80 else 0xC0;
      var first: int := b[0];
      if t.contentSize < 56 {
        TagOfShort(b);
        assert b[..1] == [base + t.contentSize];
      } else {
        TagOfLong(b);
        LongHeadIsCanonical(b, base, t.tagSize - 1, t.contentSize);
      }
      hide Head;
      assert b[..t.tagSize] == Head(base, |p.content|);
    } else {
      assert b[..0] == [];
    }
  }

  lemma TagOfShort(b: seq<Byte>)
    requires ReadKind(b).Ok? && ReadKind(b).value.kind != Single && ReadKind(b).value.contentSize < 56
    ensures var t := ReadKind(b).value;
            t.tagSize == 1 && b[0] == (if t.kind == String then 0x80 else 0xC0) + t.contentSize &&
            (t.kind == String && t.contentSize == 1 ==> b[1] >= 128)
  {
  }

  lemma TagOfLong(b: seq<Byte>)
    requires ReadKind(b).Ok? && ReadKind(b).value.kind != Single && ReadKind(b).value.contentSize >= 56
    ensures var t := ReadKind(b).value;
            1 <= t.tagSize - 1 <= 8 && b[0] == (if t.kind == String then 0x80 else 0xC0) + 55 + (t.tagSize - 1) &&
            ReadSize(b[1..], t.tagSize - 1) == Ok(t.contentSize)
  {
  }
}
