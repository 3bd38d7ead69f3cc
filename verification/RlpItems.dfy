/**
 Reading whole items with the splitter.  A byte string reads as an item and a rest
 exactly when it is the item's encoding followed by that rest.
 */
module RlpItems {
  import opened Bytes
  import opened RlpFormat
  import opened RlpRaw

  datatype Front = Front(item: Item, rest: seq<Byte>)

  /** The item at the front of `b`. */
  function ReadItem(b: seq<Byte>): (r: Result<Front>)
    ensures r.Ok? ==> |r.value.rest| < |b|
    decreases |b|, 0
  {
    match Split(b)
    case Err(e) => Err(e)
    case Ok(p) =>
      if p.kind != ListKind then Ok(Front(Str(p.content), p.rest))
      else
        match ReadAll(p.content)
        case Err(e) => Err(e)
        case Ok(items) => Ok(Front(List(items), p.rest))
  }

  /** The items that `b` consists of. */
  function ReadAll(b: seq<Byte>): (r: Result<seq<Item>>)
    decreases |b|, 1
  {
    if b == [] then Ok([])
    else
      match ReadItem(b)
      case Err(e) => Err(e)
      case Ok(f) =>
        match ReadAll(f.rest)
        case Err(e) => Err(e)
        case Ok(items) => Ok([f.item] + items)
  }

  function KindOf(item: Item): (k: Kind)
  {
    match item
    case Str(data) => if |data| == 1 && data[0] < 128 then Single else String
    case List(_) => ListKind
  }

  function Content(item: Item): (c: seq<Byte>)
  {
    match item
    case Str(data) => data
    case List(items) => EncodeAll(items)
  }

  lemma EncodeIsWrap(item: Item)
    ensures Allowed(KindOf(item), Content(item))
    ensures Encode(item) == Wrap(KindOf(item), Content(item))
    ensures |Content(item)| <= |Encode(item)|
    ensures item.List? ==> |Content(item)| < |Encode(item)|
  {
  }

  lemma SplitEncoded(item: Item, rest: seq<Byte>)
    requires |Encode(item)| < LIMIT
    ensures Split(Encode(item) + rest) == Ok(Parts(KindOf(item), Content(item), rest))
  {
    EncodeIsWrap(item);
    SplitWrap(KindOf(item), Content(item), rest);
  }

  /** Every encoding reads back as its item. */
  lemma {:induction false} ReadEncoded(item: Item, rest: seq<Byte>)
    requires |Encode(item)| < LIMIT
    ensures ReadItem(Encode(item) + rest) == Ok(Front(item, rest))
    decreases |Encode(item)|, 0
  {
    SplitEncoded(item, rest);
    EncodeIsWrap(item);
    hide Split, Encode;
    if item.List? {
      ReadAllEncoded(item.items);
    }
  }

  lemma {:induction false} ReadAllEncoded(items: seq<Item>)
    requires |EncodeAll(items)| < LIMIT
    ensures ReadAll(EncodeAll(items)) == Ok(items)
    decreases |EncodeAll(items)|, 1
  {
    if items != [] {
      ReadEncoded(items[0], EncodeAll(items[1..]));
      ReadAllEncoded(items[1..]);
      assert items == [items[0]] + items[1..];
    }
  }

  /** Whatever reads as an item is that item's encoding: no second encoding is accepted. */
  lemma {:induction false} ReadIsEncoded(b: seq<Byte>)
    requires |b| < LIMIT && ReadItem(b).Ok?
    ensures b == Encode(ReadItem(b).value.item) + ReadItem(b).value.rest
    decreases |b|, 0
  {
    SplitIsWrapped(b);
    var p := Split(b).value;
    if p.kind == ListKind {
      ReadAllIsEncoded(p.content);
    }
  }

  lemma {:induction false} ReadAllIsEncoded(b: seq<Byte>)
    requires |b| < LIMIT && ReadAll(b).Ok?
    ensures b == EncodeAll(ReadAll(b).value)
    decreases |b|, 1
  {
    if b != [] {
      ReadIsEncoded(b);
      var f := ReadItem(b).value;
      ReadAllIsEncoded(f.rest);
      var items := ReadAll(f.rest).value;
      assert ([f.item] + items)[1..] == items;
    }
  }

  /** The reader accepts `b` as `item` followed by `rest` if and only if `b` is the encoding of `item` followed by `rest`. */
  lemma ReadExactly(b: seq<Byte>, item: Item, rest: seq<Byte>)
    requires |b| < LIMIT
    ensures ReadItem(b) == Ok(Front(item, rest)) <==> b == Encode(item) + rest
  {
    if b == Encode(item) + rest {
      ReadEncoded(item, rest);
    }
    if ReadItem(b) == Ok(Front(item, rest)) {
      ReadIsEncoded(b);
    }
  }

  /** Different items have different encodings. */
  lemma EncodeInjective(a: Item, b: Item)
    requires |Encode(a)| < LIMIT && Encode(a) == Encode(b)
    ensures a == b
  {
    ReadEncoded(a, []);
    ReadEncoded(b, []);
  }

  /* ---- CountValues ---- */

  function Count(b: seq<Byte>): (r: Result<nat>)
    decreases |b|
  {
    if b == [] then Ok(0)
    else
      match Split(b)
      case Err(e) => Err(e)
      case Ok(p) =>
        match Count(p.rest)
        case Err(e) => Err(e)
        case Ok(n) => Ok(1 + n)
  }

  /** Counting sees every value of a list's content. */
  lemma {:induction false} CountEncoded(items: seq<Item>)
    requires |EncodeAll(items)| < LIMIT
    ensures Count(EncodeAll(items)) == Ok(|items|)
  {
    if items != [] {
      SplitEncoded(items[0], EncodeAll(items[1..]));
      CountEncoded(items[1..]);
    }
  }

  /** `CountValues`. */
  method CountValues(b: seq<Byte>) returns (r: Result<nat>)
    ensures r == Count(b)
  {
    var i, rest := 0, b;
    while |rest| > 0
      invariant Count(b).Ok? <==> Count(rest).Ok?
      invariant Count(b).Ok? ==> Count(b).value == i + Count(rest).value
      invariant Count(b).Err? ==> Count(b) == Count(rest)
      decreases |rest|
    {
      match ReadKind(rest) {
        case Err(e) => return Err(e);
        case Ok(t) =>
          rest := rest[t.tagSize + t.contentSize..];
          i := i + 1;
      }
    }
    return Ok(i);
  }
}
