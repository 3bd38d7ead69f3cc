/**
 A node small enough to be embedded in its parent refers to no other stored node, so
 the hashes that a stored node refers to are the hashes among its own children.
 */
module TrieEmbedding {
  import opened Bytes
  import opened TrieNode
  import opened TrieResolve
  import opened TrieCodec
  import opened TrieRefs
  import opened TrieSync
  import opened RlpFormat
  import Items = RlpItems

  /** The encoding of a list is at least as long as that of each item in it. */
  lemma ItemShorter(items: seq<Item>, i: nat)
    requires i < |items| && |Encode(List(items))| < 32
    ensures |Encode(items[i])| < 32
  {
    EncodeAllHead(items, i);
    Items.EncodeIsWrap(List(items));
  }

  lemma {:induction false} EmbeddedHoldsNoHash(keccak: HashFunction, n: Node)
    requires Shaped(n) && |Enc(keccak, n)| < 32
    ensures Gather(OneLevel(keccak, n)) == []
    decreases n, 0
  {
    match n
    case Short(k, v) =>
      var items := NodeItem(keccak, n).items;
      ItemShorter(items, 1);
      RefHoldsNoHash(keccak, v);
    case Full(c) =>
      var m := RefNodes(keccak, c)[..16];
      forall i | 0 <= i < 16
        ensures Gather(m[i]) == []
      {
        ItemShorter(RefItems(keccak, c), i);
        RefHoldsNoHash(keccak, c[i]);
      }
      GatherNothing(m);
  }

  lemma {:induction false} RefHoldsNoHash(keccak: HashFunction, v: Node)
    requires v.Nil? || v.Value? || v.Hash? || Shaped(v)
    requires |Encode(RefItem(keccak, v))| < 32
    ensures Gather(RefNode(keccak, v)) == []
    decreases v, 1
  {
    if v.Hash? {
      HashTooLong(v.digest);
    } else if Shaped(v) {
      if |Enc(keccak, v)| < 32 {
        EmbeddedHoldsNoHash(keccak, v);
      } else {
        HashTooLong(keccak(Enc(keccak, v)));
      }
    }
  }

  lemma HashTooLong(h: Digest)
    ensures |Encode(Str(h))| >= 32
  {
  }

  lemma {:induction false} GatherNothing(c: seq<Node>)
    requires forall i :: 0 <= i < |c| ==> Gather(c[i]) == []
    ensures GatherAll(c) == []
  {
    if c != [] {
      GatherNothing(c[1..]);
    }
  }

  /** What the download scheduler asks for is all that a stored node refers to. */
  lemma HashChildrenAreAll(keccak: HashFunction, n: Node)
    requires Shaped(n)
    ensures Gather(OneLevel(keccak, n)) == HashChildren(OneLevel(keccak, n))
  {
    if n.Short? {
      RefDirect(keccak, n.val);
      assert OneLevel(keccak, n) == Short(n.key, RefNode(keccak, n.val));
    } else {
      FullDirect(keccak, n.children);
      assert OneLevel(keccak, n) == Full(RefNodes(keccak, n.children));
    }
    hide Shaped, RefNode, RefNodes, Gather, HashesIn, OneLevel;
  }

  lemma FullDirect(keccak: HashFunction, c: seq<Node>)
    requires Shaped(Full(c))
    ensures Gather(Full(RefNodes(keccak, c))) == HashChildren(Full(RefNodes(keccak, c)))
  {
    var m := RefNodes(keccak, c);
    forall i | 0 <= i < 16
      ensures Gather(m[i]) == HashesIn([m[i]])
    {
      RefDirect(keccak, c[i]);
    }
    assert !m[16].Hash?;
    hide Shaped, RefNode, RefNodes, HashesIn;
    FullGather(m);
  }

  lemma FullGather(m: seq<Node>)
    requires |m| == 17 && !m[16].Hash? && forall i :: 0 <= i < 16 ==> Gather(m[i]) == HashesIn([m[i]])
    ensures Gather(Full(m)) == HashesIn(m)
  {
    GatherDirect(m[..16]);
    assert m == m[..16] + [m[16]];
    HashesInConcat(m[..16], [m[16]]);
    assert [m[16]][1..] == [];
    assert HashesIn([m[16]]) == [];
  }

  lemma RefDirect(keccak: HashFunction, v: Node)
    requires v.Nil? || v.Value? || v.Hash? || Shaped(v)
    ensures Gather(RefNode(keccak, v)) == HashesIn([RefNode(keccak, v)])
  {
    assert [RefNode(keccak, v)][1..] == [];
    if Shaped(v) && |Enc(keccak, v)| < 32 {
      EmbeddedHoldsNoHash(keccak, v);
    }
  }

  lemma {:induction false} GatherDirect(c: seq<Node>)
    requires forall i :: 0 <= i < |c| ==> Gather(c[i]) == HashesIn([c[i]])
    ensures GatherAll(c) == HashesIn(c)
  {
    if c != [] {
      GatherDirect(c[1..]);
      assert [c[0]][1..] == [];
    }
  }

  lemma {:induction false} HashesInConcat(a: seq<Node>, b: seq<Node>)
    ensures HashesIn(a + b) == HashesIn(a) + HashesIn(b)
  {
    hide *;
    if a == [] {
      HashesInNone();
      assert a + b == b;
    } else {
      var first, rest := a[0], a[1..];
      HashesInConcat(rest, b);
      assert a == [first] + rest && a + b == [first] + (rest + b);
      HashesInHead(first, rest);
      HashesInHead(first, rest + b);
      Reassociate(HashesIn([first]), HashesIn(rest), HashesIn(b));
    }
  }

  lemma HashesInNone()
    ensures HashesIn([]) == []
  {
  }

  lemma HashesInHead(first: Node, rest: seq<Node>)
    ensures HashesIn([first] + rest) == HashesIn([first]) + HashesIn(rest)
  {
    assert [first][1..] == [] && ([first] + rest)[1..] == rest;
  }
}
