/**
 How trie nodes are stored: as RLP, short keys in compact form, and every child
 either embedded, when its encoding is shorter than 32 bytes, or replaced by the
 hash of its encoding.  Reading a stored node gives one level of the trie back.
 The hash function is a parameter; nothing but its output length is used here.
 */
module TrieCodec {
  import opened Bytes
  import opened TrieNode
  import opened TrieResolve
  import opened HexKeys
  import opened RlpFormat
  import Raw = RlpRaw
  import Items = RlpItems

  type HashFunction = seq<Byte> -> Digest

  /** The RLP item of a node in memory, its children collapsed. */
  function NodeItem(keccak: HashFunction, n: Node): (item: Item)
    requires Shaped(n)
    decreases n, 0
  {
    match n
    case Short(k, v) => List([Str(HexToCompact(k)), RefItem(keccak, v)])
    case Full(c) => List(RefItems(keccak, c))
  }

  /** What a parent stores for a child: nothing, a value, a hash, or the whole child when it is small. */
  function RefItem(keccak: HashFunction, n: Node): (item: Item)
    requires n.Nil? || n.Value? || n.Hash? || Shaped(n)
    decreases n, 1
  {
    match n
    case Nil => Str([])
    case Value(data) => Str(data)
    case Hash(h) => Str(h)
    case _ =>
      var item := NodeItem(keccak, n);
      if |Encode(item)| < 32 then item else Str(keccak(Encode(item)))
  }

  function RefItems(keccak: HashFunction, c: seq<Node>): (items: seq<Item>)
    requires forall i :: 0 <= i < |c| ==> c[i].Nil? || c[i].Value? || c[i].Hash? || Shaped(c[i])
    ensures |items| == |c|
    ensures forall i :: 0 <= i < |c| ==> items[i] == RefItem(keccak, c[i])
    decreases c, 2
  {
    if c == [] then [] else [RefItem(keccak, c[0])] + RefItems(keccak, c[1..])
  }

  function Enc(keccak: HashFunction, n: Node): (blob: seq<Byte>)
    requires Shaped(n)
  {
    Encode(NodeItem(keccak, n))
  }

  /** What reading the stored form of `n` gives: hashed children stay hashes, embedded ones are read too. */
  function OneLevel(keccak: HashFunction, n: Node): (m: Node)
    requires Shaped(n)
    decreases n, 0
  {
    match n
    case Short(k, v) => Short(k, RefNode(keccak, v))
    case Full(c) => Full(RefNodes(keccak, c))
  }

  function RefNode(keccak: HashFunction, n: Node): (m: Node)
    requires n.Nil? || n.Value? || n.Hash? || Shaped(n)
    decreases n, 1
  {
    match n
    case Nil => n
    case Value(_) => n
    case Hash(_) => n
    case _ => if |Enc(keccak, n)| < 32 then OneLevel(keccak, n) else Hash(keccak(Enc(keccak, n)))
  }

  function RefNodes(keccak: HashFunction, c: seq<Node>): (m: seq<Node>)
    requires forall i :: 0 <= i < |c| ==> c[i].Nil? || c[i].Value? || c[i].Hash? || Shaped(c[i])
    ensures |m| == |c|
    ensures forall i :: 0 <= i < |c| ==> m[i] == RefNode(keccak, c[i])
    decreases c, 2
  {
    if c == [] then [] else [RefNode(keccak, c[0])] + RefNodes(keccak, c[1..])
  }

  /* ---- decodeNode ---- */

  datatype Ref = Ref(node: Node, rest: seq<Byte>)

  /** `decodeNode`. */
  function DecodeNode(buf: seq<Byte>): (r: Option<Node>)
    decreases |buf|, 0
  {
    match Raw.Split(buf)
    case Err(_) => None
    case Ok(p) =>
      if p.kind != Raw.ListKind then None
      else
        match Items.Count(p.content)
        case Err(_) => None
        case Ok(count) =>
          if count == 2 then DecodeShort(p.content)
          else if count == 17 then DecodeFull(p.content)
          else None
  }

  /** `decodeShort`: the terminator in the key tells a value from a reference. */
  function DecodeShort(elems: seq<Byte>): (r: Option<Node>)
    decreases |elems|, 2
  {
    match Raw.SplitString(elems)
    case Err(_) => None
    case Ok(k) =>
      var key := CompactToHex(k.content);
      if HasTerm(key) then
        match Raw.SplitString(k.rest)
        case Err(_) => None
        case Ok(v) => Some(Short(key, Value(v.content)))
      else
        match DecodeRef(k.rest)
        case None => None
        case Some(v) => Some(Short(key, v.node))
  }

  /** `decodeFull`: sixteen references and a value. */
  function DecodeFull(elems: seq<Byte>): (r: Option<Node>)
    decreases |elems|, 4
  {
    match DecodeRefs(elems, 16)
    case None => None
    case Some(c) =>
      match Raw.SplitString(c.1)
      case Err(_) => None
      case Ok(v) => Some(Full(c.0 + [if v.content == [] then Nil else Value(v.content)]))
  }

  /** The first `n` references in `elems` and what follows them. */
  function DecodeRefs(elems: seq<Byte>, n: nat): (r: Option<(seq<Node>, seq<Byte>)>)
    ensures r.Some? ==> |r.value.0| == n
    decreases |elems|, 3, n
  {
    if n == 0 then Some(([], elems))
    else
      match DecodeRef(elems)
      case None => None
      case Some(first) =>
        match DecodeRefs(first.rest, n - 1)
        case None => None
        case Some(c) => Some(([first.node] + c.0, c.1))
  }

  /** `decodeRef`: an embedded node, nothing, or a hash. */
  function DecodeRef(buf: seq<Byte>): (r: Option<Ref>)
    ensures r.Some? ==> |r.value.rest| < |buf|
    decreases |buf|, 1
  {
    match Raw.Split(buf)
    case Err(_) => None
    case Ok(p) =>
      if p.kind == Raw.ListKind then
        if |buf| - |p.rest| > 32 then None
        else
          match DecodeNode(buf)
          case None => None
          case Some(n) => Some(Ref(n, p.rest))
      else if p.kind == Raw.String && p.content == [] then Some(Ref(Nil, p.rest))
      else if p.kind == Raw.String && |p.content| == 32 then Some(Ref(Hash(p.content), p.rest))
      else None
  }

  /* ---- Reading inverts storing ---- */

  lemma {:induction false} EncodeAllTail(items: seq<Item>, i: nat)
    requires i <= |items|
    ensures |EncodeAll(items[i..])| <= |EncodeAll(items)|
  {
    if i == 0 {
      assert items[0..] == items;
    } else {
      EncodeAllTail(items[1..], i - 1);
      assert items[1..][i - 1..] == items[i..];
    }
  }

  lemma EncodeAllHead(items: seq<Item>, i: nat)
    requires i < |items|
    ensures EncodeAll(items[i..]) == Encode(items[i]) + EncodeAll(items[i + 1..])
    ensures |Encode(items[i])| <= |EncodeAll(items)|
  {
    EncodeAllTail(items, i);
    assert items[i..][1..] == items[i + 1..];
  }

  /** The items of a stored node, and that the splitter finds them. */
  lemma SplitNode(keccak: HashFunction, n: Node, rest: seq<Byte>)
    requires Shaped(n) && |Enc(keccak, n)| < LIMIT
    ensures var items := NodeItem(keccak, n).items;
            |EncodeAll(items)| < LIMIT &&
            Raw.Split(Enc(keccak, n) + rest) == Raw.Ok(Raw.Parts(Raw.ListKind, EncodeAll(items), rest)) &&
            Items.Count(EncodeAll(items)) == Raw.Ok(|items|)
  {
    var item := NodeItem(keccak, n);
    Items.SplitEncoded(item, rest);
    Items.EncodeIsWrap(item);
    Items.CountEncoded(item.items);
  }

  lemma {:induction false} DecodeEncoded(keccak: HashFunction, n: Node, rest: seq<Byte>)
    requires Shaped(n) && |Enc(keccak, n)| < LIMIT
    ensures DecodeNode(Enc(keccak, n) + rest) == Some(OneLevel(keccak, n))
    decreases n, 0
  {
    SplitNode(keccak, n, rest);
    hide Raw.Split, Items.Count, Enc;
    match n
    case Short(k, v) => DecodeShortEncoded(keccak, k, v);
    case Full(c) => DecodeFullEncoded(keccak, c);
  }

  lemma {:induction false} DecodeShortEncoded(keccak: HashFunction, k: Key, v: Node)
    requires Shaped(Short(k, v))
    requires |EncodeAll(NodeItem(keccak, Short(k, v)).items)| < LIMIT
    ensures DecodeShort(EncodeAll(NodeItem(keccak, Short(k, v)).items)) == Some(OneLevel(keccak, Short(k, v)))
    decreases Short(k, v), 0, 0
  {
    hide Encode, EncodeAll, DecodeShort, HexToCompact, Decodes;
    if !v.Value? {
      DecodesRef(keccak, v);
    }
    ShortDecodes(k, RefItem(keccak, v), RefNode(keccak, v));
  }

  lemma ShortDecodes(k: Key, ref: Item, node: Node)
    requires Plain(k) || Terminated(k)
    requires |EncodeAll([Str(HexToCompact(k)), ref])| < LIMIT
    requires if HasTerm(k) then ref.Str? && node == Value(ref.data) else Decodes(ref, node)
    ensures DecodeShort(EncodeAll([Str(HexToCompact(k)), ref])) == Some(Short(k, node))
  {
    hide Raw.Split, HexToCompact, CompactToHex, Encode, EncodeAll, DecodeRef;
    var key := Str(HexToCompact(k));
    EncodeAllTwo(key, ref);
    var a, b := Encode(key), Encode(ref);
    Items.SplitEncoded(key, b);
    Items.SplitEncoded(ref, []);
    CompactRoundTrip(k);
    assert b + [] == b;
  }

  lemma EncodeAllTwo(a: Item, b: Item)
    ensures EncodeAll([a, b]) == Encode(a) + Encode(b)
  {
    assert [a, b][1..] == [b];
    EncodeAllOne(b);
    hide Encode;
  }

  lemma {:induction false} DecodeRefEncoded(keccak: HashFunction, v: Node, rest: seq<Byte>)
    requires v.Nil? || v.Hash? || Shaped(v)
    ensures DecodeRef(Encode(RefItem(keccak, v)) + rest) == Some(Ref(RefNode(keccak, v), rest))
    decreases v, 1
  {
    var item := RefItem(keccak, v);
    RefItemShort(keccak, v);
    Items.SplitEncoded(item, rest);
    hide Raw.Split;
    if Shaped(v) && |Enc(keccak, v)| < 32 {
      DecodeEncoded(keccak, v, rest);
    }
  }

  lemma RefItemShort(keccak: HashFunction, v: Node)
    requires v.Nil? || v.Hash? || Shaped(v)
    ensures |Encode(RefItem(keccak, v))| <= 33
  {
  }

  lemma {:induction false} DecodeFullEncoded(keccak: HashFunction, c: seq<Node>)
    requires Shaped(Full(c))
    requires |EncodeAll(RefItems(keccak, c))| < LIMIT
    ensures DecodeFull(EncodeAll(RefItems(keccak, c))) == Some(OneLevel(keccak, Full(c)))
    decreases Full(c), 0, 0
  {
    FullParts(keccak, c);
    var items, m := RefItems(keccak, c), RefNodes(keccak, c);
    hide *;
    forall j | 0 <= j < 16
      ensures Decodes(items[j], m[j])
    {
      DecodesRef(keccak, c[j]);
    }
    FullDecodes(items, m);
  }

  lemma FullParts(keccak: HashFunction, c: seq<Node>)
    requires Shaped(Full(c))
    ensures |c| == 17 && forall j :: 0 <= j < 16 ==> c[j].Nil? || c[j].Hash? || Shaped(c[j])
    ensures forall j :: 0 <= j < |c| ==> c[j].Nil? || c[j].Value? || c[j].Hash? || Shaped(c[j])
    ensures OneLevel(keccak, Full(c)) == Full(RefNodes(keccak, c))
    ensures var item, node := RefItem(keccak, c[16]), RefNode(keccak, c[16]);
            item.Str? && node == if item.data == [] then Nil else Value(item.data)
  {
  }

  lemma {:induction false} DecodesRef(keccak: HashFunction, v: Node)
    requires v.Nil? || v.Hash? || Shaped(v)
    ensures Decodes(RefItem(keccak, v), RefNode(keccak, v))
    decreases v, 2
  {
    forall rest: seq<Byte>
      ensures DecodeRef(Encode(RefItem(keccak, v)) + rest) == Some(Ref(RefNode(keccak, v), rest))
    {
      DecodeRefEncoded(keccak, v, rest);
    }
  }

  /** Wherever `item` is encoded, it reads as `node`. */
  ghost predicate Decodes(item: Item, node: Node)
  {
    forall rest: seq<Byte> :: DecodeRef(Encode(item) + rest) == Some(Ref(node, rest))
  }

  lemma FullDecodes(items: seq<Item>, m: seq<Node>)
    requires |items| == |m| == 17 && |EncodeAll(items)| < LIMIT
    requires forall j :: 0 <= j < 16 ==> Decodes(items[j], m[j])
    requires items[16].Str? && m[16] == if items[16].data == [] then Nil else Value(items[16].data)
    ensures DecodeFull(EncodeAll(items)) == Some(Full(m))
  {
    hide DecodeRef, DecodeRefs, Encode, EncodeAll, Decodes, Raw.Split;
    DecodeRefsOf(items, m, 0);
    EncodeAllHead(items, 16);
    Items.SplitEncoded(items[16], []);
    assert items[0..] == items && items[17..] == [];
    EncodeAllNone(items[17..]);
    assert Encode(items[16]) + [] == Encode(items[16]);
    assert m[0..16] + [m[16]] == m;
  }

  lemma EncodeAllNone(items: seq<Item>)
    requires items == []
    ensures EncodeAll(items) == []
  {
  }

  lemma {:induction false} DecodeRefsOf(items: seq<Item>, m: seq<Node>, i: nat)
    requires |items| == |m| == 17 && i <= 16
    requires forall j :: 0 <= j < 16 ==> Decodes(items[j], m[j])
    ensures DecodeRefs(EncodeAll(items[i..]), 16 - i) == Some((m[i..16], EncodeAll(items[16..])))
    decreases 16 - i
  {
    hide DecodeRef, DecodeRefs, Encode, EncodeAll;
    if i == 16 {
      DecodeRefsNone(EncodeAll(items[16..]));
      assert m[16..16] == [];
    } else {
      EncodeAllHead(items, i);
      DecodeRefsOf(items, m, i + 1);
      assert Decodes(items[i], m[i]);
      DecodeRefsStep(Encode(items[i]), EncodeAll(items[i + 1..]), m[i], 16 - i, m[i + 1..16], EncodeAll(items[16..]));
      assert [m[i]] + m[i + 1..16] == m[i..16];
    }
  }

  lemma DecodeRefsNone(b: seq<Byte>)
    ensures DecodeRefs(b, 0) == Some(([], b))
  {
  }

  lemma DecodeRefsStep(a: seq<Byte>, b: seq<Byte>, node: Node, n: nat, nodes: seq<Node>, rest: seq<Byte>)
    requires n > 0
    requires DecodeRef(a + b) == Some(Ref(node, b))
    requires DecodeRefs(b, n - 1) == Some((nodes, rest))
    ensures DecodeRefs(a + b, n) == Some(([node] + nodes, rest))
  {
    hide DecodeRef;
  }
}
