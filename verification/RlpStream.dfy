/**
 The streaming decoder over a byte reader with an input limit: a cursor, a stack of
 open lists with the position reached in each, and the kind of the value ahead once
 its header has been read.  Decoding into an interface value reads exactly the
 items of the format.
 */
module RlpStream {
  import opened Bytes
  import opened RlpFormat
  import opened RlpRaw
  import opened RlpItems

  datatype ListPos = ListPos(pos: nat, size: nat)

  /** Bytes that may still be read before the innermost list, or the input, ends. */
  function Room(stack: seq<ListPos>, at: nat, total: nat): (n: int)
  {
    if stack == [] then total - at else stack[|stack| - 1].size - stack[|stack| - 1].pos
  }

  /** The innermost list has moved on by `n` bytes. */
  function Advance(stack: seq<ListPos>, n: nat): (s: seq<ListPos>)
    ensures |s| == |stack|
  {
    if stack == [] then []
    else
      var top := stack[|stack| - 1];
      stack[|stack| - 1 := ListPos(top.pos + n, top.size)]
  }

  /**
   Every open list lies inside the one below it.  A list's own position does not
   move while an inner list is open, so the inner list is measured from its start.
   */
  ghost predicate Nested(stack: seq<ListPos>, at: nat, total: nat)
    decreases |stack|
  {
    if stack == [] then at <= total
    else
      var top, below := stack[|stack| - 1], stack[..|stack| - 1];
      top.pos <= top.size && top.pos <= at &&
      Nested(below, at - top.pos, total) && top.size <= Room(below, at - top.pos, total)
  }

  lemma {:induction false} NestedRoom(stack: seq<ListPos>, at: nat, total: nat)
    requires Nested(stack, at, total)
    ensures 0 <= Room(stack, at, total) <= total - at
    decreases |stack|
  {
    if stack != [] {
      var top, below := stack[|stack| - 1], stack[..|stack| - 1];
      NestedRoom(below, at - top.pos, total);
    }
  }

  lemma NestedAdvance(stack: seq<ListPos>, at: nat, total: nat, n: nat)
    requires Nested(stack, at, total) && n <= Room(stack, at, total)
    ensures Nested(Advance(stack, n), at + n, total)
    ensures Room(Advance(stack, n), at + n, total) == Room(stack, at, total) - n
  {
    if stack != [] {
      assert Advance(stack, n)[..|stack| - 1] == stack[..|stack| - 1];
    }
  }

  lemma AdvanceTwice(stack: seq<ListPos>, m: nat, n: nat)
    ensures Advance(Advance(stack, m), n) == Advance(stack, m + n)
    ensures Advance(stack, 0) == stack
  {
  }

  lemma NestedPush(stack: seq<ListPos>, at: nat, total: nat, size: nat)
    requires Nested(stack, at, total) && size <= Room(stack, at, total)
    ensures Nested(stack + [ListPos(0, size)], at, total)
    ensures Room(stack + [ListPos(0, size)], at, total) == size
  {
    assert (stack + [ListPos(0, size)])[..|stack|] == stack;
  }

  /** The header at the front of `w`; a single byte is its own header and has no content. */
  function Header(w: seq<Byte>): (r: Option<Tag>)
    ensures r.Some? ==> 1 <= r.value.tagSize && r.value.tagSize + r.value.contentSize <= |w|
  {
    if w == [] then None
    else if w[0] < 0x80 then Some(Tag(Single, 1, 0))
    else
      var b: int := w[0];
      var tag :=
        if b < 0xB8 then Some(Tag(String, 1, b - 0x80))
        else if b < 0xC0 then LongHeader(w, String, b - 0xB7)
        else if b < 0xF8 then Some(Tag(ListKind, 1, b - 0xC0))
        else LongHeader(w, ListKind, b - 0xF7);
      if tag.Some? && tag.value.tagSize + tag.value.contentSize <= |w| then tag else None
  }

  function LongHeader(w: seq<Byte>, kind: Kind, slen: nat): (r: Option<Tag>)
    requires w != [] && 1 <= slen <= 8
    ensures r.Some? ==> r.value.tagSize == 1 + slen <= |w|
  {
    match ReadSize(w[1..], slen)
    case Err(_) => None
    case Ok(size) => Some(Tag(kind, 1 + slen, size))
  }

  /** A string of one byte that should have been that byte alone. */
  predicate ShouldBeSingle(w: seq<Byte>, tag: Tag)
    requires tag.tagSize + tag.contentSize <= |w|
  {
    tag.kind == String && tag.contentSize == 1 && w[tag.tagSize] < 128
  }

  /** Splitter and stream read the same headers; the stream finds the over-long single byte only when it reads the content. */
  lemma SplitByHeader(w: seq<Byte>)
    ensures Split(w).Ok? <==> Header(w).Some? && !ShouldBeSingle(w, Header(w).value)
    ensures Split(w).Ok? ==>
              var t := Header(w).value;
              var n := t.tagSize + t.contentSize;
              Split(w).value == Parts(t.kind, if t.kind == Single then w[..1] else w[t.tagSize..n], w[n..])
  {
    hide Number;
    KindByHeader(w);
    hide ReadKind, Header;
  }

  /** The same for the kind alone; for a single byte the splitter counts the byte as content. */
  lemma KindByHeader(w: seq<Byte>)
    ensures ReadKind(w).Ok? <==> Header(w).Some? && !ShouldBeSingle(w, Header(w).value)
    ensures ReadKind(w).Ok? ==>
              var t := Header(w).value;
              ReadKind(w).value == if t.kind == Single then Tag(Single, 0, 1) else t
    ensures Header(w).Some? && Header(w).value.kind == Single ==> Header(w).value == Tag(Single, 1, 0)
  {
    if w != [] && w[0] >= 0xB8 {
      var b: int := w[0];
      LongSize(w[1..], if b < 0xC0 then b - 0xB7 else if b < 0xF8 then 1 else b - 0xF7);
    }
    hide Number, ReadSize;
  }

  lemma LongSize(b: seq<Byte>, slen: nat)
    requires 1 <= slen <= 8
    ensures ReadSize(b, slen).Ok? ==> ReadSize(b, slen).value >= 56
  {
    hide Number;
  }

  /** The item of a value from its kind and content; a single byte is in the header. */
  function ItemOf(kind: Kind, first: Byte, content: seq<Byte>): (r: Option<Item>)
  {
    match kind
    case Single => Some(Str([first]))
    case String => if |content| == 1 && content[0] < 128 then None else Some(Str(content))
    case ListKind => if ReadAll(content).Ok? then Some(List(ReadAll(content).value)) else None
  }

  lemma CutTwice(w: seq<Byte>, m: nat, n: nat)
    requires m + n <= |w|
    ensures w[m..][n..] == w[m + n..] && w[m..][..n] == w[m..m + n]
  {
  }

  lemma OnlySingleUsesFirst(kind: Kind, a: Byte, b: Byte, content: seq<Byte>)
    requires kind == Single ==> a == b
    ensures ItemOf(kind, a, content) == ItemOf(kind, b, content)
  {
  }

  /** The item at the front of `w`, told from its header. */
  lemma ReadByHeader(w: seq<Byte>)
    ensures Header(w).None? ==> ReadItem(w).Err?
    ensures Header(w).Some? ==>
              var t := Header(w).value;
              var n := t.tagSize + t.contentSize;
              var item := ItemOf(t.kind, w[0], w[t.tagSize..n]);
              if item.None? then ReadItem(w).Err? else ReadItem(w) == Ok(Front(item.value, w[n..]))
  {
    SplitByHeader(w);
    SingleHeader(w);
    hide Split, Header, ReadAll;
    if Header(w).Some? && Header(w).value.kind == Single {
      assert w[..1] == [w[0]];
    }
  }

  lemma SingleHeader(w: seq<Byte>)
    ensures Header(w).Some? && Header(w).value.kind == Single ==>
              Header(w).value.tagSize == 1 && Header(w).value.contentSize == 0
  {
  }

  /** `items` have been read off `w` and `here` is what is left. */
  ghost predicate Decoding(w: seq<Byte>, items: seq<Item>, here: seq<Byte>)
  {
    match ReadAll(here)
    case Ok(more) => ReadAll(w) == Ok(items + more)
    case Err(_) => ReadAll(w).Err?
  }

  lemma DecodingStart(w: seq<Byte>)
    ensures Decoding(w, [], w)
  {
    hide ReadAll;
    if ReadAll(w).Ok? {
      assert [] + ReadAll(w).value == ReadAll(w).value;
    }
  }

  lemma DecodingStep(w: seq<Byte>, items: seq<Item>, here: seq<Byte>)
    requires here != [] && Decoding(w, items, here)
    ensures ReadItem(here).Ok? ==> Decoding(w, items + [ReadItem(here).value.item], ReadItem(here).value.rest)
    ensures ReadItem(here).Err? ==> ReadAll(w).Err?
  {
    hide ReadItem;
    if ReadItem(here).Ok? {
      var f := ReadItem(here).value;
      if ReadAll(f.rest).Ok? {
        var more := ReadAll(f.rest).value;
        assert items + ([f.item] + more) == items + [f.item] + more;
      }
    }
  }

  lemma DecodingEnd(w: seq<Byte>, items: seq<Item>)
    requires Decoding(w, items, [])
    ensures ReadAll(w) == Ok(items)
  {
    assert items + [] == items;
  }

  datatype Decoded = Done(item: Item) | EndOfList | Failed

  datatype Peek = Ready | AtEnd | Broken

  class Stream {
    const input: seq<Byte>
    var at: nat
    var remaining: nat
    var stack: seq<ListPos>
    var kind: Option<Kind>
    var size: nat
    var byteval: Byte

    ghost predicate Valid()
      reads this
    {
      at + remaining == |input| && Nested(stack, at, |input|)
    }

    /** What may still be read in the innermost list. */
    ghost function Window(): (w: seq<Byte>)
      requires Valid()
      reads this
    {
      NestedRoom(stack, at, |input|);
      input[at..at + Room(stack, at, |input|)]
    }

    /** The stream has read `n` more bytes of the innermost list. */
    twostate predicate Moved(n: nat)
      reads this
    {
      at == old(at) + n && stack == Advance(old(stack), n)
    }

    constructor (b: seq<Byte>)
      ensures input == b && at == 0 && stack == [] && kind == None
      ensures Valid() && Window() == b
    {
      input, at, remaining, stack, kind, size, byteval := b, 0, |b|, [], None, 0, 0;
    }

    /** `willRead`: accounts for `n` bytes in the innermost list and in the input limit. */
    method WillRead(n: nat) returns (ok: bool)
      requires Valid()
      modifies this
      ensures kind == None && at == old(at)
      ensures ok <==> n <= old(Room(stack, at, |input|))
      ensures ok ==> stack == Advance(old(stack), n) && remaining == old(remaining) - n
      ensures !ok ==> stack == old(stack) && remaining == old(remaining)
      ensures size == old(size) && byteval == old(byteval)
    {
      kind := None;
      NestedRoom(stack, at, |input|);
      if |stack| > 0 {
        var tos := stack[|stack| - 1];
        if n > tos.size - tos.pos {
          return false;
        }
        stack := stack[|stack| - 1 := ListPos(tos.pos + n, tos.size)];
      }
      if n > remaining {
        return false;
      }
      remaining := remaining - n;
      return true;
    }

    /** `readFull`. */
    method ReadFull(n: nat) returns (r: Option<seq<Byte>>)
      requires Valid()
      modifies this
      ensures Valid() && kind == None && size == old(size) && byteval == old(byteval)
      ensures r.Some? <==> n <= |old(Window())|
      ensures r.Some? ==> Moved(n) && r.value == old(Window())[..n] && Window() == old(Window())[n..]
      ensures r.None? ==> Moved(0)
    {
      NestedRoom(stack, at, |input|);
      AdvanceTwice(stack, 0, 0);
      ghost var w, stack0, at0 := Window(), stack, at;
      var ok := WillRead(n);
      if !ok {
        return None;
      }
      NestedAdvance(stack0, at0, |input|, n);
      NestedRoom(Advance(stack0, n), at0 + n, |input|);
      var b := input[at..at + n];
      at := at + n;
      return Some(b);
    }

    /** `readByte`. */
    method ReadByte() returns (r: Option<Byte>)
      requires Valid()
      modifies this
      ensures Valid() && kind == None && size == old(size)
      ensures r.Some? <==> old(Window()) != []
      ensures r.Some? ==> Moved(1) && r.value == old(Window())[0] && Window() == old(Window())[1..]
      ensures r.None? ==> Moved(0)
    {
      var b := ReadFull(1);
      return if b.Some? then Some(b.value[0]) else None;
    }

    /** `readUint`, as used for sizes: no leading zero when there is more than one byte. */
    method ReadUint(slen: nat) returns (r: Option<nat>)
      requires Valid() && 1 <= slen <= 8
      modifies this
      ensures Valid() && kind == None && size == old(size)
      ensures r.Some? <==> slen <= |old(Window())| && (slen > 1 ==> old(Window())[0] != 0)
      ensures r.Some? ==> Moved(slen) && Window() == old(Window())[slen..]
      ensures r.Some? ==> r.value == Number(old(Window())[..slen])
    {
      var b := ReadFull(slen);
      if b.None? {
        return None;
      }
      if slen == 1 {
        SingleNumber(b.value);
        return Some(b.value[0]);
      }
      if b.value[0] == 0 {
        return None;
      }
      return Some(Number(b.value));
    }

    /** The separate size of a long string or list, which must not be below 56. */
    method ReadLongSize(slen: nat) returns (r: Option<nat>)
      requires Valid() && 1 <= slen <= 8
      modifies this
      ensures Valid() && kind == None
      ensures ReadSize(old(Window()), slen).Ok? ==>
                r == Some(ReadSize(old(Window()), slen).value) && Moved(slen) && Window() == old(Window())[slen..]
      ensures ReadSize(old(Window()), slen).Err? ==> r == None
    {
      ghost var w := Window();
      r := ReadUint(slen);
      if r.Some? && r.value < 56 {
        r := None;
      }
      if slen == 1 && |w| >= 1 {
        SingleNumber(w[..1]);
      }
    }

    /** `readKind`: consumes the header of the next value. */
    method ReadHeader() returns (r: Option<Tag>)
      requires Valid() && Window() != []
      modifies this
      ensures Valid()
      ensures Header(old(Window())).Some? ==>
                r == Header(old(Window())) && Moved(r.value.tagSize) && Window() == old(Window())[r.value.tagSize..] &&
                (r.value.kind == Single ==> byteval == old(Window())[0])
      ensures Header(old(Window())).None? && r.Some? ==> r.value.contentSize > |Window()|
    {
      hide Number, Nested, Advance;
      ghost var w, stack0 := Window(), stack;
      var first := ReadByte();
      var b: int := first.value;
      byteval := 0;
      if b < 0x80 {
        byteval := b;
        return Some(Tag(Single, 1, 0));
      } else if b < 0xB8 {
        return Some(Tag(String, 1, b - 0x80));
      } else if 0xC0 <= b < 0xF8 {
        return Some(Tag(ListKind, 1, b - 0xC0));
      }
      var slen := if b < 0xC0 then b - 0xB7 else b - 0xF7;
      var n := ReadLongSize(slen);
      if n.None? {
        return None;
      }
      AdvanceTwice(stack0, 1, slen);
      assert w[1..][slen..] == w[1 + slen..];
      return Some(Tag(if b < 0xC0 then String else ListKind, 1 + slen, n.value));
    }

    /** `Kind`: reads the header of the value ahead once, and checks that the value fits. */
    method PeekKind() returns (p: Peek)
      requires Valid() && kind == None
      modifies this
      ensures Valid()
      ensures p.AtEnd? <==> old(stack) != [] && old(Window()) == []
      ensures p.AtEnd? ==> at == old(at) && stack == old(stack) && kind == None
      ensures p.Ready? <==> Header(old(Window())).Some?
      ensures p.Ready? ==>
                var t := Header(old(Window())).value;
                kind == Some(t.kind) && size == t.contentSize && Moved(t.tagSize) &&
                Window() == old(Window())[t.tagSize..] && (t.kind == Single ==> byteval == old(Window())[0])
    {
      NestedRoom(stack, at, |input|);
      if |stack| > 0 && stack[|stack| - 1].pos == stack[|stack| - 1].size {
        return AtEnd;
      }
      if at == |input| {
        return Broken;
      }
      hide Header;
      var tag := ReadHeader();
      if tag.None? {
        return Broken;
      }
      NestedRoom(stack, at, |input|);
      if tag.value.contentSize > Room(stack, at, |input|) {
        return Broken;
      }
      kind, size := Some(tag.value.kind), tag.value.contentSize;
      return Ready;
    }

    /** `Bytes`, once the header is known to be that of a string. */
    method Bytes() returns (r: Option<seq<Byte>>)
      requires Valid() && kind.Some? && kind.value != ListKind && size <= |Window()|
      requires kind.value == Single ==> size == 0
      modifies this
      ensures Valid()
      ensures r.Some? <==> old(kind.value == Single || size != 1 || Window()[0] >= 128)
      ensures r.Some? ==>
                kind == None && Moved(old(size)) && Window() == old(Window())[old(size)..] &&
                r.value == old(if kind.value == Single then [byteval] else Window()[..size])
    {
      AdvanceTwice(stack, 0, 0);
      if kind.value == Single {
        kind := None;
        return Some([byteval]);
      }
      var n := size;
      var b := ReadFull(n);
      if n == 1 && b.value[0] < 128 {
        return None;
      }
      return b;
    }

    /** `List`, once the header is known to be that of a list: its content becomes the window. */
    method EnterList()
      requires Valid() && kind == Some(ListKind) && size <= |Window()|
      modifies this
      ensures Valid() && kind == None && at == old(at)
      ensures stack == old(stack) + [ListPos(0, old(size))]
      ensures Window() == old(Window()[..size])
    {
      NestedRoom(stack, at, |input|);
      NestedPush(stack, at, |input|, size);
      stack := stack + [ListPos(0, size)];
      kind := None;
      size := 0;
    }

    /** `ListEnd`: back to the enclosing list, which moves past the whole inner list at once. */
    method LeaveList() returns (ok: bool)
      requires Valid() && stack != [] && kind == None
      modifies this
      ensures ok <==> old(Window()) == []
      ensures ok ==> Valid() && kind == None && at == old(at)
      ensures ok ==> stack == Advance(old(stack)[..|old(stack)| - 1], old(stack)[|old(stack)| - 1].size)
    {
      NestedRoom(stack, at, |input|);
      var tos := stack[|stack| - 1];
      if tos.pos != tos.size {
        return false;
      }
      ghost var below := stack[..|stack| - 1];
      NestedAdvance(below, at - tos.pos, |input|, tos.size);
      stack := stack[..|stack| - 1];
      if |stack| > 0 {
        stack := stack[|stack| - 1 := ListPos(stack[|stack| - 1].pos + tos.size, stack[|stack| - 1].size)];
      }
      kind := None;
      size := 0;
      return true;
    }

    /** `decodeInterface`: the next item of the innermost list or of the input. */
    method DecodeInterface() returns (r: Decoded)
      requires Valid() && kind == None
      modifies this
      ensures old(stack) != [] && old(Window()) == [] ==>
                r.EndOfList? && Valid() && kind == None && at == old(at) && stack == old(stack)
      ensures (old(stack) == [] || old(Window()) != []) && ReadItem(old(Window())).Ok? ==>
                var f := ReadItem(old(Window())).value;
                r == Done(f.item) && Valid() && kind == None &&
                Moved(|old(Window())| - |f.rest|) && Window() == f.rest
      ensures (old(stack) == [] || old(Window()) != []) && ReadItem(old(Window())).Err? ==> r.Failed?
      decreases |input| - at, 0
    {
      ghost var w, stack0 := Window(), stack;
      ReadByHeader(w);
      SingleHeader(w);
      hide ReadItem, ReadAll, Header, Nested, Advance, Room, ItemOf;
      var p := PeekKind();
      if !p.Ready? {
        return if p.AtEnd? then EndOfList else Failed;
      }
      ghost var t := Header(w).value;
      AdvanceTwice(stack0, t.tagSize, t.contentSize);
      CutTwice(w, t.tagSize, t.contentSize);
      OnlySingleUsesFirst(t.kind, byteval, w[0], w[t.tagSize..t.tagSize + t.contentSize]);
      r := DecodeAhead();
    }

    /** The value ahead: a list item by item, or a string. */
    method DecodeAhead() returns (r: Decoded)
      requires Valid() && kind.Some? && size <= |Window()|
      requires kind.value == Single ==> size == 0
      modifies this
      ensures var item := old(ItemOf(kind.value, byteval, Window()[..size]));
              if item.None? then r.Failed?
              else
                r == Done(item.value) && Valid() && kind == None &&
                Moved(old(size)) && Window() == old(Window())[old(size)..]
      decreases |input| - at, 3
    {
      hide ReadItem, ReadAll, Header, Nested, Advance, Room;
      if kind == Some(ListKind) {
        var items := DecodeListSlice();
        return if items.Some? then Done(List(items.value)) else Failed;
      }
      var b := Bytes();
      return if b.Some? then Done(Str(b.value)) else Failed;
    }

    /** `decodeListSlice`: into the list, its items, and out again. */
    method DecodeListSlice() returns (r: Option<seq<Item>>)
      requires Valid() && kind == Some(ListKind) && size <= |Window()|
      modifies this
      ensures ReadAll(old(Window()[..size])).Ok? ==>
                r == Some(ReadAll(old(Window()[..size])).value) && Valid() && kind == None &&
                Moved(old(size)) && Window() == old(Window()[size..])
      ensures ReadAll(old(Window()[..size])).Err? ==> r == None
      decreases |input| - at, 2
    {
      hide ReadAll;
      ghost var w, stack0, at0, n := Window(), stack, at, size;
      NestedRoom(stack0, at0, |input|);
      NestedAdvance(stack0, at0, |input|, n);
      EnterList();
      r := DecodeSliceElems();
      if r.None? {
        return;
      }
      assert stack == stack0 + [ListPos(n, n)];
      var ok := LeaveList();
      assert stack == Advance(stack0, n);
      assert Window() == w[n..];
    }

    /** `decodeSliceElems`: items until the innermost list ends. */
    method DecodeSliceElems() returns (r: Option<seq<Item>>)
      requires Valid() && kind == None && stack != []
      modifies this
      ensures ReadAll(old(Window())).Ok? ==>
                r == Some(ReadAll(old(Window())).value) && Valid() && kind == None &&
                Moved(|old(Window())|) && Window() == []
      ensures ReadAll(old(Window())).Err? ==> r == None
      decreases |input| - at, 1
    {
      hide ReadAll, ReadItem, Decoding, Nested, Advance;
      ghost var w, stack0, at0 := Window(), stack, at;
      NestedRoom(stack, at, |input|);
      AdvanceTwice(stack0, 0, 0);
      DecodingStart(w);
      var items: seq<Item> := [];
      while true
        invariant Valid() && kind == None && at0 <= at <= at0 + |w|
        invariant stack == Advance(stack0, at - at0) && |Window()| == |w| - (at - at0)
        invariant Decoding(w, items, Window())
        decreases |input| - at
      {
        ghost var here, sofar := Window(), at - at0;
        var d := DecodeInterface();
        if d.EndOfList? {
          DecodingEnd(w, items);
          return Some(items);
        }
        DecodingStep(w, items, here);
        if d.Failed? {
          return None;
        }
        AdvanceTwice(stack0, sofar, at - at0 - sofar);
        items := items + [d.item];
      }
    }
  }

  lemma SingleNumber(b: seq<Byte>)
    requires |b| == 1
    ensures Number(b) == b[0]
  {
    assert b[..0] == [];
  }

  /**
   `DecodeBytes` into an interface value: one item and nothing after it.  Together
   with `Encode` it is a bijection between items and accepted inputs.
   */
  method DecodeBytes(b: seq<Byte>) returns (r: Option<Item>)
    requires |b| < LIMIT
    ensures r.Some? ==> b == Encode(r.value)
    ensures r.None? ==> forall item :: b != Encode(item)
  {
    hide ReadItem, Encode;
    var s := new Stream(b);
    var d := s.DecodeInterface();
    if d.Done? {
      ReadIsEncoded(b);
      if s.at < |b| {
        forall item
          ensures b != Encode(item)
        {
          OnlyWhole(b, item);
        }
        return None;
      }
      ghost var f := ReadItem(b).value;
      assert f.rest == [];
      assert Encode(f.item) + [] == Encode(f.item);
      return Some(d.item);
    }
    forall item
      ensures b != Encode(item)
    {
      OnlyWhole(b, item);
    }
    return None;
  }

  lemma OnlyWhole(b: seq<Byte>, item: Item)
    requires |b| < LIMIT
    ensures b == Encode(item) ==> ReadItem(b) == Ok(Front(item, []))
  {
    ReadExactly(b, item, []);
    assert Encode(item) + [] == Encode(item);
  }
}
