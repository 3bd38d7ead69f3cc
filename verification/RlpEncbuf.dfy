/**
 The encoder's buffer.  List headers cannot be written before the list is complete,
 so string data and headers are kept apart, each header with the place in the string
 data where it belongs, and are woven together at the end: at once (`ToBytes`),
 piecewise into a writer (`ToWriter`), or on demand (`EncReader`).  All three yield
 the recursive encoding.
 */
module RlpEncbuf {
  import opened Bytes
  import opened RlpFormat

  datatype ListHead = ListHead(offset: nat, size: nat)

  datatype Emitted = Emitted(str: seq<Byte>, heads: seq<ListHead>)

  function HeadBytes(h: ListHead): (b: seq<Byte>)
  {
    Head(0xC0, h.size)
  }

  /** The sum of the sizes of the encoded headers. */
  function HeadTotal(heads: seq<ListHead>): (n: nat)
  {
    if heads == [] then 0 else HeadTotal(heads[..|heads| - 1]) + |HeadBytes(heads[|heads| - 1])|
  }

  lemma {:induction false} HeadTotalAppend(a: seq<ListHead>, b: seq<ListHead>)
    ensures HeadTotal(a + b) == HeadTotal(a) + HeadTotal(b)
  {
    if b == [] {
      assert a + b == a;
    } else {
      assert (a + b)[..|a + b| - 1] == a + b[..|b| - 1];
      HeadTotalAppend(a, b[..|b| - 1]);
    }
  }

  /** String data and headers of `item`, when the buffer already holds `offset` bytes of string data. */
  function Emit(item: Item, offset: nat): (e: Emitted)
    decreases item
  {
    match item
    case Str(data) => Emitted(Encode(item), [])
    case List(items) =>
      Enclose(EmitAll(items, offset), offset)
  }

  /** A list at `offset` around what its items emitted: its size counts the inner headers too. */
  function Enclose(inner: Emitted, offset: nat): (e: Emitted)
  {
    Emitted(inner.str, [ListHead(offset, |inner.str| + HeadTotal(inner.heads))] + inner.heads)
  }

  function EmitAll(items: seq<Item>, offset: nat): (e: Emitted)
    decreases items
  {
    if items == [] then Emitted([], [])
    else
      var front := EmitAll(items[..|items| - 1], offset);
      var last := Emit(items[|items| - 1], offset + |front.str|);
      Join(front, last)
  }

  function Join(a: Emitted, b: Emitted): (e: Emitted)
  {
    Emitted(a.str + b.str, a.heads + b.heads)
  }

  /* ---- Weaving ---- */

  /** The headers lie, in order, within the string data that starts at `base`. */
  ghost predicate Ordered(str: seq<Byte>, base: nat, heads: seq<ListHead>)
    decreases |heads|
  {
    heads == [] ||
    (base <= heads[0].offset <= base + |str| &&
     Ordered(str[heads[0].offset - base..], heads[0].offset, heads[1..]))
  }

  /** The string data that starts at `base` with the headers put in their places. */
  ghost function Weave(str: seq<Byte>, base: nat, heads: seq<ListHead>): (b: seq<Byte>)
    requires Ordered(str, base, heads)
    decreases |heads|
  {
    if heads == [] then str
    else
      var k := heads[0].offset - base;
      str[..k] + (HeadBytes(heads[0]) + Weave(str[k..], heads[0].offset, heads[1..]))
  }

  lemma {:induction false} WeaveAfter(a: seq<Byte>, b: seq<Byte>, base: nat, heads: seq<ListHead>)
    requires Ordered(b, base + |a|, heads)
    ensures Ordered(a + b, base, heads)
    ensures Weave(a + b, base, heads) == a + Weave(b, base + |a|, heads)
  {
    if heads == [] {
      WeaveNone(b, base + |a|);
      WeaveNone(a + b, base);
    } else {
      WeaveAfterHead(a, b, base, heads[0], heads[1..]);
      assert heads == [heads[0]] + heads[1..];
    }
  }

  lemma WeaveNone(str: seq<Byte>, base: nat)
    ensures Ordered(str, base, []) && Weave(str, base, []) == str
  {
  }

  lemma WeaveAfterHead(a: seq<Byte>, b: seq<Byte>, base: nat, h: ListHead, heads: seq<ListHead>)
    requires Ordered(b, base + |a|, [h] + heads)
    ensures Ordered(a + b, base, [h] + heads)
    ensures Weave(a + b, base, [h] + heads) == a + Weave(b, base + |a|, [h] + heads)
  {
    OrderedHead(b, base + |a|, h, heads);
    hide *;
    var k := h.offset - base - |a|;
    CutAfter(a, b, k);
    WeaveStep(b, base + |a|, h, heads);
    WeaveStep(a + b, base, h, heads);
    Reassociate(a, b[..k], HeadBytes(h) + Weave(b[k..], h.offset, heads));
  }

  lemma CutAfter(a: seq<Byte>, b: seq<Byte>, k: nat)
    requires k <= |b|
    ensures (a + b)[|a| + k..] == b[k..] && (a + b)[..|a| + k] == a + b[..k]
  {
  }

  lemma OrderedHead(str: seq<Byte>, base: nat, h: ListHead, heads: seq<ListHead>)
    requires Ordered(str, base, [h] + heads)
    ensures base <= h.offset <= base + |str|
  {
  }

  lemma WeaveStep(str: seq<Byte>, base: nat, h: ListHead, heads: seq<ListHead>)
    requires base <= h.offset <= base + |str|
    ensures Ordered(str, base, [h] + heads) <==> Ordered(str[h.offset - base..], h.offset, heads)
    ensures Ordered(str, base, [h] + heads) ==>
              Weave(str, base, [h] + heads) ==
              str[..h.offset - base] + (HeadBytes(h) + Weave(str[h.offset - base..], h.offset, heads))
  {
    hide HeadBytes;
    assert ([h] + heads)[1..] == heads;
  }

  lemma WeaveConcatStep(a: seq<Byte>, b: seq<Byte>, base: nat, h: ListHead, hs: seq<ListHead>, heads: seq<ListHead>, w: seq<Byte>)
    requires base <= h.offset <= base + |a|
    requires Ordered(a[h.offset - base..], h.offset, hs)
    requires Ordered(a[h.offset - base..] + b, h.offset, heads)
    requires Weave(a[h.offset - base..] + b, h.offset, heads) == Weave(a[h.offset - base..], h.offset, hs) + w
    ensures Ordered(a, base, [h] + hs) && Ordered(a + b, base, [h] + heads)
    ensures Weave(a + b, base, [h] + heads) == Weave(a, base, [h] + hs) + w
  {
    hide Weave, Ordered, HeadBytes;
    var k := h.offset - base;
    WeaveStep(a, base, h, hs);
    assert (a + b)[k..] == a[k..] + b && (a + b)[..k] == a[..k];
    WeaveStep(a + b, base, h, heads);
    Regroup(a[..k], HeadBytes(h), Weave(a[k..], h.offset, hs), w);
  }

  /** Weaving works piece by piece. */
  lemma {:induction false} WeaveConcat(a: seq<Byte>, b: seq<Byte>, base: nat, ha: seq<ListHead>, hb: seq<ListHead>)
    requires Ordered(a, base, ha) && Ordered(b, base + |a|, hb)
    ensures Ordered(a + b, base, ha + hb)
    ensures Weave(a + b, base, ha + hb) == Weave(a, base, ha) + Weave(b, base + |a|, hb)
    decreases |ha|
  {
    if ha == [] {
      assert ha + hb == hb;
      WeaveAfter(a, b, base, hb);
    } else {
      var h, hs := ha[0], ha[1..];
      var k := h.offset - base;
      assert h.offset + |a[k..]| == base + |a|;
      WeaveConcat(a[k..], b, h.offset, hs, hb);
      hide Weave, Ordered;
      WeaveConcatStep(a, b, base, h, hs, hs + hb, Weave(b, base + |a|, hb));
      assert ha == [h] + hs && ha + hb == [h] + (hs + hb);
    }
  }

  lemma Regroup(a: seq<Byte>, b: seq<Byte>, c: seq<Byte>, d: seq<Byte>)
    ensures a + (b + (c + d)) == a + (b + c) + d
  {
  }

  lemma {:induction false} WeaveLength(str: seq<Byte>, base: nat, heads: seq<ListHead>)
    requires Ordered(str, base, heads)
    ensures |Weave(str, base, heads)| == |str| + HeadTotal(heads)
    decreases |heads|
  {
    hide Head;
    if heads != [] {
      var k := heads[0].offset - base;
      WeaveLength(str[k..], heads[0].offset, heads[1..]);
      assert heads == [heads[0]] + heads[1..];
      HeadTotalAppend([heads[0]], heads[1..]);
      assert HeadTotal([heads[0]]) == |HeadBytes(heads[0])|;
    }
  }

  /** `e`, emitted when the buffer held `offset` bytes of string data, weaves into `enc`. */
  ghost predicate WeavesTo(e: Emitted, offset: nat, enc: seq<Byte>)
  {
    Ordered(e.str, offset, e.heads) && Weave(e.str, offset, e.heads) == enc
  }

  lemma WeavesJoin(a: Emitted, b: Emitted, offset: nat, x: seq<Byte>, y: seq<Byte>)
    requires WeavesTo(a, offset, x) && WeavesTo(b, offset + |a.str|, y)
    ensures WeavesTo(Join(a, b), offset, x + y)
  {
    hide Ordered, Weave;
    WeaveConcat(a.str, b.str, offset, a.heads, b.heads);
  }

  lemma WeaveHeadFirst(str: seq<Byte>, base: nat, h: ListHead, heads: seq<ListHead>)
    requires h.offset == base && Ordered(str, base, heads)
    ensures Ordered(str, base, [h] + heads)
    ensures Weave(str, base, [h] + heads) == HeadBytes(h) + Weave(str, base, heads)
  {
    hide HeadBytes;
    var all := [h] + heads;
    assert all[0] == h && all[1..] == heads;
    assert str[0..] == str && str[..0] == [];
    var tail := HeadBytes(h) + Weave(str, base, heads);
    assert [] + tail == tail;
  }

  lemma WeavesList(inner: Emitted, offset: nat, payload: seq<Byte>)
    requires WeavesTo(inner, offset, payload)
    ensures WeavesTo(Enclose(inner, offset), offset, Head(0xC0, |payload|) + payload)
  {
    hide Head, HeadTotal, Weave, Ordered;
    WeaveLength(inner.str, offset, inner.heads);
    var h := ListHead(offset, |inner.str| + HeadTotal(inner.heads));
    WeaveHeadFirst(inner.str, offset, h, inner.heads);
  }

  /** What is emitted for an item weaves into its encoding. */
  lemma {:induction false} WeaveEmit(item: Item, offset: nat)
    ensures WeavesTo(Emit(item, offset), offset, Encode(item))
    decreases item
  {
    match item
    case Str(_) =>
    case List(items) =>
      var inner, payload := EmitAll(items, offset), EncodeAll(items);
      assert Emit(item, offset) == Enclose(inner, offset);
      assert Encode(item) == Head(0xC0, |payload|) + payload;
      hide *;
      WeaveEmitAll(items, offset);
      WeavesList(inner, offset, payload);
  }

  lemma {:induction false} WeaveEmitAll(items: seq<Item>, offset: nat)
    ensures WeavesTo(EmitAll(items, offset), offset, EncodeAll(items))
    decreases items
  {
    if items == [] {
      assert EmitAll(items, offset) == Emitted([], []) && EncodeAll(items) == [];
      WeaveNone([], offset);
    } else {
      var most, last := items[..|items| - 1], items[|items| - 1];
      var front := EmitAll(most, offset);
      assert EmitAll(items, offset) == Join(front, Emit(last, offset + |front.str|));
      hide *;
      WeaveEmitAll(most, offset);
      WeaveEmit(last, offset + |front.str|);
      WeavesJoin(front, Emit(last, offset + |front.str|), offset, EncodeAll(most), Encode(last));
      EncodeAllAppend(most, [last]);
      EncodeAllOne(last);
      assert items == most + [last];
    }
  }

  /* ---- Integers ---- */

  /** `intsize`. */
  method IntSize(n: nat) returns (size: nat)
    ensures size == |BigEndian(n)|
  {
    size := 1;
    var i: nat := n / 256;
    while i != 0
      invariant |BigEndian(n)| == (if i == 0 then size else size + |BigEndian(i)|)
      decreases i
    {
      i := i / 256;
      size := size + 1;
    }
  }

  /* ---- The buffer ---- */

  datatype Buffer = Buffer(str: seq<Byte>, heads: seq<ListHead>, headSize: nat)

  /** A buffer that `e` has been appended to. */
  ghost function Grown(b: Buffer, e: Emitted): (b': Buffer)
  {
    Buffer(b.str + e.str, b.heads + e.heads, b.headSize + HeadTotal(e.heads))
  }

  lemma GrownTwice(b: Buffer, e: Emitted, f: Emitted)
    ensures Grown(Grown(b, e), f) == Grown(b, Join(e, f))
  {
    HeadTotalAppend(e.heads, f.heads);
    hide HeadTotal;
    assert b.str + e.str + f.str == b.str + (e.str + f.str);
    assert b.heads + e.heads + f.heads == b.heads + (e.heads + f.heads);
  }

  /** Opening a list, growing by its items and closing it grows the buffer by the list. */
  lemma GrownList(b: Buffer, inner: Emitted, offset: nat)
    ensures var size := |inner.str| + HeadTotal(inner.heads);
            var after := Grown(b.(heads := b.heads + [ListHead(offset, b.headSize)]), inner);
            Grown(b, Enclose(inner, offset)) ==
            Buffer(after.str, after.heads[|b.heads| := ListHead(offset, size)], after.headSize + |Head(0xC0, size)|)
  {
    hide Head;
    var size := |inner.str| + HeadTotal(inner.heads);
    var head := ListHead(offset, size);
    HeadTotalAppend([head], inner.heads);
    assert HeadTotal([head]) == |HeadBytes(head)| by {
      assert [head][..0] == [];
    }
    hide HeadTotal;
    var open := b.heads + [ListHead(offset, b.headSize)] + inner.heads;
    assert open[|b.heads| := head] == b.heads + ([head] + inner.heads);
  }

  class Encbuf {
    var str: seq<Byte>
    var lheads: seq<ListHead>
    var lhsize: nat

    constructor ()
      ensures State() == Buffer([], [], 0)
    {
      str, lheads, lhsize := [], [], 0;
    }

    ghost function State(): (b: Buffer)
      reads this
    {
      Buffer(str, lheads, lhsize)
    }

    /** `encodeString`. */
    method EncodeString(b: seq<Byte>)
      modifies this`str
      ensures str == old(str) + Encode(Str(b))
    {
      if |b| == 1 && b[0] <= 0x7F {
        str := str + [b[0]];
        assert b == [b[0]];
      } else {
        assert Encode(Str(b)) == Head(0x80, |b|) + b;
        str := str + Head(0x80, |b|);
        str := str + b;
        assert str == old(str) + (Head(0x80, |b|) + b);
      }
    }

    /** `list`: reserves a header; until the list ends it remembers how much header space came before it. */
    method OpenList() returns (lh: nat)
      modifies this`lheads
      ensures lh == |old(lheads)|
      ensures lheads == old(lheads) + [ListHead(|str|, lhsize)]
    {
      lh := |lheads|;
      lheads := lheads + [ListHead(|str|, lhsize)];
    }

    /** `listEnd`: the list's size is everything written since, headers included. */
    method CloseList(lh: nat)
      requires lh < |lheads|
      requires lheads[lh].offset + lheads[lh].size <= |str| + lhsize
      modifies this`lheads, this`lhsize
      ensures var size := |str| + old(lhsize) - old(lheads[lh]).offset - old(lheads[lh]).size;
              lheads == old(lheads)[lh := ListHead(old(lheads[lh]).offset, size)] &&
              lhsize == old(lhsize) + |Head(0xC0, size)|
    {
      var size := |str| + lhsize - lheads[lh].offset - lheads[lh].size;
      lheads := lheads[lh := ListHead(lheads[lh].offset, size)];
      if size < 56 {
        lhsize := lhsize + 1;
      } else {
        var n := IntSize(size % LIMIT);
        lhsize := lhsize + 1 + n;
      }
    }

    /** Writes an item tree, depth first. */
    method EncodeItem(item: Item)
      modifies this
      ensures State() == Grown(old(State()), Emit(item, |old(str)|))
      decreases item
    {
      match item
      case Str(data) => EncodeString(data);
      case List(items) =>
        EncodeList(items);
    }

    method EncodeList(items: seq<Item>)
      modifies this
      ensures State() == Grown(old(State()), Enclose(EmitAll(items, |old(str)|), |old(str)|))
      decreases items, 1
    {
      hide HeadTotal, EmitAll, Head, Enclose;
      ghost var b, inner := State(), EmitAll(items, |str|);
      var lh := OpenList();
      EncodeItems(items);
      CloseList(lh);
      GrownList(b, inner, |b.str|);
    }

    method EncodeItems(items: seq<Item>)
      modifies this
      ensures State() == Grown(old(State()), EmitAll(items, |old(str)|))
      decreases items, 0
    {
      GrownNothing(State());
      assert items[..0] == [] && items[..|items|] == items;
      assert EmitAll(items[..0], |str|) == Emitted([], []);
      hide *;
      var i := 0;
      while i < |items|
        invariant 0 <= i <= |items|
        invariant State() == Grown(old(State()), EmitAll(items[..i], |old(str)|))
      {
        ghost var b := State();
        EncodeItem(items[i]);
        GrownNext(old(State()), b, items, i);
        i := i + 1;
      }
    }
  }

  /** One more item written. */
  lemma GrownNext(b: Buffer, b': Buffer, items: seq<Item>, i: nat)
    requires i < |items| && b' == Grown(b, EmitAll(items[..i], |b.str|))
    ensures Grown(b', Emit(items[i], |b'.str|)) == Grown(b, EmitAll(items[..i + 1], |b.str|))
  {
    hide *;
    var e := EmitAll(items[..i], |b.str|);
    GrownLength(b, e);
    GrownTwice(b, e, Emit(items[i], |b'.str|));
    EmitAllLast(items, i, |b.str|);
  }

  lemma GrownLength(b: Buffer, e: Emitted)
    ensures |Grown(b, e).str| == |b.str| + |e.str|
  {
  }

  lemma EmitAllLast(items: seq<Item>, i: nat, offset: nat)
    requires i < |items|
    ensures var e := EmitAll(items[..i], offset);
            EmitAll(items[..i + 1], offset) == Join(e, Emit(items[i], offset + |e.str|))
  {
    hide Emit;
    assert items[..i + 1][..i] == items[..i];
  }

  lemma GrownNothing(b: Buffer)
    ensures Grown(b, Emitted([], [])) == b
  {
    assert b.str + [] == b.str && b.heads + [] == b.heads;
  }
}
