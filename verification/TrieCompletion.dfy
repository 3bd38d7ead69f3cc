/**
 What the download scheduler and the write cache promise about whole tries: once
 nothing is pending, or once a root has been committed, the trie can be opened at its
 root hash.
 */
module TrieCompletion {
  import opened Bytes
  import opened TrieNode
  import opened TrieResolve
  import opened TrieCodec
  import opened TrieStorage
  import opened TrieRefs
  import opened TriePresence
  import opened TrieEmbedding
  import opened RlpFormat
  import C = TrieCacheFacts
  import D = TrieDatabase
  import HexKeys
  import S = TrieSync
  import B = TrieSyncBooks

  /** Under `h` is the encoding of some node, if there is anything. */
  ghost predicate HoldsNode(keccak: HashFunction, disk: Disk, h: Digest)
  {
    h in disk ==> exists m :: Shaped(m) && |Enc(keccak, m)| < LIMIT && disk[h] == Enc(keccak, m)
  }

  ghost function NodesHeld(keccak: HashFunction, disk: Disk, nodes: iset<Digest>): (held: iset<Digest>)
  {
    iset h | h in nodes && HoldsNode(keccak, disk, h)
  }

  lemma HeldTop(keccak: HashFunction, disk: Disk, t: Node, known: iset<seq<Byte>>)
    requires Minimal(t) && Known(keccak, t, known) && Addressed(keccak, disk, known)
    ensures HoldsNode(keccak, disk, RootHash(keccak, t))
  {
    if RootHash(keccak, t) in disk {
      HasKnown(keccak, disk, t, known);
      MinimalShaped(t);
    }
    hide Known, Addressed;
  }

  /** In a store addressed by content the nodes of a trie are what is stored under their hashes. */
  lemma {:induction false} NodesAreHeld(
      keccak: HashFunction, disk: Disk, t: Node, known: iset<seq<Byte>>, nodes: iset<Digest>)
    requires Slot(t) && Known(keccak, t, known) && Addressed(keccak, disk, known) && NodesIn(keccak, t, nodes)
    ensures NodesIn(keccak, t, NodesHeld(keccak, disk, nodes))
    decreases t
  {
    if Minimal(t) {
      HeldTop(keccak, disk, t, known);
      hide HoldsNode, Addressed, Blob;
      match t
      case Short(_, v) => NodesAreHeld(keccak, disk, v, known, nodes);
      case Full(c) =>
        forall i | 0 <= i < 17
          ensures NodesIn(keccak, c[i], NodesHeld(keccak, disk, nodes))
        {
          NodesAreHeld(keccak, disk, c[i], known, nodes);
        }
    }
  }

  /**
   The entry was not read as a node whose children are to be fetched: it was asked for as
   a raw entry, or the callback failed on it.
   */
  ghost predicate ReadInPart(sync: S.Sync, kind: B.Kind, data: seq<Byte>)
  {
    kind.Raw? || S.Fails(kind, data, sync.leaf)
  }

  /** What is stored under `h` was read in full; or it is no node; or its children are stored all the same. */
  ghost predicate ReadWhole(sync: S.Sync, h: Digest)
    reads sync
  {
    var m := sync.Contents();
    Id(h) in m && Id(h) in sync.kinds && ReadInPart(sync, sync.kinds[Id(h)], m[Id(h)]) && DecodeNode(m[Id(h)]).Some? ==>
      forall c :: c in S.HashChildren(DecodeNode(m[Id(h)]).value) ==> c in m
  }

  ghost function WholeNodes(sync: S.Sync): (nodes: iset<Digest>)
    reads sync
  {
    iset h: Digest | ReadWhole(sync, h)
  }

  lemma ChildrenStored(sync: S.Sync, keccak: HashFunction, h: Digest, m: Node)
    requires sync.Valid() && Id(h) in sync.Contents() && Id(h) in sync.kinds
    requires !ReadInPart(sync, sync.kinds[Id(h)], sync.Contents()[Id(h)])
    requires Shaped(m) && DecodeNode(sync.Contents()[Id(h)]) == Some(OneLevel(keccak, m))
    ensures AllIn(S.HashChildren(OneLevel(keccak, m)), ByHash(sync.Contents()))
  {
    var n := OneLevel(keccak, m);
    hide OneLevel, DecodeNode, S.HashChildren, Shaped;
    forall c | c in S.HashChildren(n)
      ensures c.Id? && c.digest in ByHash(sync.Contents())
    {
      assert sync.Refers(Id(h), c);
      sync.RefersStored(Id(h), c);
    }
  }

  lemma DecodeHeld(keccak: HashFunction, m: Node)
    requires Shaped(m) && |Enc(keccak, m)| < LIMIT
    ensures DecodeNode(Enc(keccak, m)) == Some(OneLevel(keccak, m))
    ensures Gather(OneLevel(keccak, m)) == S.HashChildren(OneLevel(keccak, m))
  {
    hide *;
    DecodeEncoded(keccak, m, []);
    assert Enc(keccak, m) + [] == Enc(keccak, m);
    HashChildrenAreAll(keccak, m);
  }

  /** Nodes that were read as nodes are complete; for the others the two conditions are the same. */
  lemma WholeIsComplete(sync: S.Sync, keccak: HashFunction, h: Digest)
    requires sync.Valid() && HoldsNode(keccak, ByHash(sync.Contents()), h)
    ensures ReadWhole(sync, h) <==> Complete(ByHash(sync.Contents()), h)
  {
    if Id(h) in sync.Contents() {
      var m :| Shaped(m) && |Enc(keccak, m)| < LIMIT && ByHash(sync.Contents())[h] == Enc(keccak, m);
      DecodeHeld(keccak, m);
      sync.StoredRead(Id(h));
      hide Enc, OneLevel, DecodeNode, Gather, S.HashChildren, Shaped, S.Sync.Valid, S.References;
      if !ReadInPart(sync, sync.kinds[Id(h)], sync.Contents()[Id(h)]) {
        ChildrenStored(sync, keccak, h, m);
      } else {
        NamesOnly(S.HashChildren(OneLevel(keccak, m)), sync.Contents());
      }
    }
  }

  lemma NamesOnly(ids: seq<Id>, m: Named)
    requires Meta !in ids
    ensures AllIn(ids, ByHash(m)) <==> forall c :: c in ids ==> c in m
  {
  }

  lemma {:induction false} NodesMore(keccak: HashFunction, t: Node, nodes: iset<Digest>, more: iset<Digest>)
    requires Slot(t) && NodesIn(keccak, t, nodes) && nodes <= more
    ensures NodesIn(keccak, t, more)
    decreases t
  {
    if Minimal(t) {
      hide Blob;
      match t
      case Short(_, v) => NodesMore(keccak, v, nodes, more);
      case Full(c) =>
        forall i | 0 <= i < 17
          ensures NodesIn(keccak, c[i], more)
        {
          NodesMore(keccak, c[i], nodes, more);
        }
    }
  }

  lemma SameNodes(sync: S.Sync, keccak: HashFunction, t: Node, known: iset<seq<Byte>>)
    requires sync.Valid() && Minimal(t)
    requires Known(keccak, t, known) && Addressed(keccak, ByHash(sync.Contents()), known)
    ensures var root, whole, complete := RootHash(keccak, t), WholeNodes(sync), CompleteNodes(ByHash(sync.Contents()));
            (root in whole <==> root in complete) && (NodesIn(keccak, t, whole) <==> NodesIn(keccak, t, complete))
  {
    var disk, whole := ByHash(sync.Contents()), WholeNodes(sync);
    var complete := CompleteNodes(disk);
    forall h | HoldsNode(keccak, disk, h)
      ensures h in whole <==> h in complete
    {
      WholeIsComplete(sync, keccak, h);
    }
    HeldTop(keccak, disk, t, known);
    hide WholeNodes, CompleteNodes, HoldsNode, S.Sync.Valid, Known, Addressed, NodesIn, ByHash;
    if NodesIn(keccak, t, whole) {
      NodesAreHeld(keccak, disk, t, known, whole);
      NodesMore(keccak, t, NodesHeld(keccak, disk, whole), complete);
    }
    if NodesIn(keccak, t, complete) {
      NodesAreHeld(keccak, disk, t, known, complete);
      NodesMore(keccak, t, NodesHeld(keccak, disk, complete), whole);
    }
  }

  /**
   When nothing is pending, a trie whose root was asked for is there exactly when each of
   its nodes that was read in part happens to have its children stored.
   */
  lemma TrieDelivered(sync: S.Sync, keccak: HashFunction, t: Node, known: iset<seq<Byte>>)
    requires sync.Valid() && sync.requests == map[] && Minimal(t) && Id(RootHash(keccak, t)) in sync.roots
    requires Known(keccak, t, known) && Addressed(keccak, ByHash(sync.Contents()), known)
    ensures Represents(Opened(ByHash(sync.Contents())), Hash(RootHash(keccak, t)), t) <==>
            RootHash(keccak, t) in WholeNodes(sync) && NodesIn(keccak, t, WholeNodes(sync))
  {
    var root := RootHash(keccak, t);
    assert Id(root) in sync.Contents() by {
      sync.NothingPending([Id(root)], 0);
    }
    hide *;
    assert root in ByHash(sync.Contents());
    SameNodes(sync, keccak, t, known);
    OpensExactly(keccak, ByHash(sync.Contents()), t, known);
  }

  /* ---- A trie that is not delivered ---- */

  /**
   A database that got a node's bytes as a raw entry, contract code say, has nothing to
   fetch for the trie with that root, and so does not come to hold what is below it.
   */
  method RawRoot(h: Digest, blob: seq<Byte>, callback: nat, emptyRoot: Id, emptyState: Id, leaf: S.Callback,
                 ghost keccak: HashFunction, ghost t: Node, ghost known: iset<seq<Byte>>, ghost c: Digest)
    returns (sync: S.Sync)
    requires Minimal(t) && Shaped(t) && h == RootHash(keccak, t) && blob == Blob(keccak, t) && Id(h) != emptyRoot
    requires Known(keccak, t, known) && Addressed(keccak, map[h := blob], known)
    requires Id(c) in S.HashChildren(OneLevel(keccak, t)) && c != h
    ensures sync.Valid() && sync.requests == map[] && sync.roots == {Id(h)} && sync.Contents() == map[Id(h) := blob]
    ensures h !in WholeNodes(sync) && !Represents(Opened(ByHash(sync.Contents())), Hash(h), t)
  {
    hide *;
    ghost var kinds := map[Id(h) := B.Raw];
    RawRefersToNothing(blob, leaf, emptyRoot, emptyState);
    sync := new S.Sync(map[Id(h) := blob], kinds, h, callback, emptyRoot, emptyState, leaf);
    ContentsAtFirst(sync);
    assert ByHash(sync.Contents()) == map[h := blob];
    RawInPart(sync, blob);
    RootLacks(sync, keccak, t, known, c);
    TrieDelivered(sync, keccak, t, known);
  }

  lemma RawRefersToNothing(blob: seq<Byte>, leaf: S.Callback, emptyRoot: Id, emptyState: Id)
    ensures S.References(B.Raw, blob, leaf, emptyRoot, emptyState) == []
  {
  }

  lemma ContentsAtFirst(sync: S.Sync)
    requires sync.batch == map[]
    ensures sync.Contents() == sync.database
  {
  }

  /** A root that was read in part and has a child that is not stored. */
  lemma RootLacks(sync: S.Sync, keccak: HashFunction, t: Node, known: iset<seq<Byte>>, c: Digest)
    requires Minimal(t) && Shaped(t) && Known(keccak, t, known)
    requires var h, blob := RootHash(keccak, t), Blob(keccak, t);
             Id(h) in sync.Contents() && sync.Contents()[Id(h)] == blob &&
             Id(h) in sync.kinds && ReadInPart(sync, sync.kinds[Id(h)], blob)
    requires Id(c) in S.HashChildren(OneLevel(keccak, t)) && Id(c) !in sync.Contents()
    ensures RootHash(keccak, t) !in WholeNodes(sync)
  {
    DecodeHeld(keccak, t);
    hide Enc, OneLevel, DecodeNode, S.HashChildren, Shaped, Minimal, ReadInPart;
  }

  lemma RawInPart(sync: S.Sync, data: seq<Byte>)
    ensures ReadInPart(sync, B.Raw, data)
  {
  }

  /**
   A callback that asks for an entry and then fails on the root: once the entry arrives the
   root is stored and nothing is pending, though the root's children were never asked for.
   */
  method FailingCallback(h: Digest, blob: seq<Byte>, e: Digest, data: seq<Byte>,
                         callback: nat, emptyRoot: Id, emptyState: Id, leaf: S.Callback,
                         ghost keccak: HashFunction, ghost t: Node, ghost known: iset<seq<Byte>>, ghost c: Digest)
    returns (sync: S.Sync)
    requires Minimal(t) && Shaped(t) && h == RootHash(keccak, t) && blob == Blob(keccak, t) && Id(h) != emptyRoot
    requires Known(keccak, t, known) && Addressed(keccak, map[h := blob, e := data], known)
    requires e != h && Id(e) != emptyState && S.Answer(OneLevel(keccak, t), callback, leaf) == S.Reply([S.RawEntry(e)], true)
    requires Id(c) in S.HashChildren(OneLevel(keccak, t)) && c != h && c != e
    ensures sync.Valid() && sync.requests == map[] && sync.roots == {Id(h)}
    ensures sync.Contents() == map[Id(h) := blob, Id(e) := data]
    ensures h !in WholeNodes(sync) && !Represents(Opened(ByHash(sync.Contents())), Hash(h), t)
  {
    hide *;
    FailsOnRoot(keccak, t, known, callback, leaf);
    sync := new S.Sync(map[], map[], h, callback, emptyRoot, emptyState, leaf);
    ghost var rs, b := sync.requests, sync.books;
    S.WhenTaken(rs, Id(h));
    var r := sync.ProcessOne(Id(h), blob);
    ghost var rs1, kinds1 := sync.requests, sync.kinds;
    NothingStored(sync);
    assert rs[Id(h) := rs[Id(h)].(data := Some(blob))] == map[Id(h) := B.Request(B.Trie(callback), Some(blob), [], 0, 0)];
    AskedFor(rs1, h, blob, e, callback, emptyRoot, emptyState, b, sync.books);
    S.WhenTaken(rs1, Id(e));
    S.FailsWhen(B.Raw, data, leaf);
    var r' := sync.ProcessOne(Id(e), data);
    NotPending(sync, Id(e));
    NothingLeft(sync, rs1[Id(e) := rs1[Id(e)].(data := Some(data))], h, e);
    BothStored(sync, h, blob, e, data);
    KindKept(rs, map[], rs1, kinds1, sync.kinds, Id(h));
    FailedInPart(sync, B.Trie(callback), blob);
    RootLacks(sync, keccak, t, known, c);
    assert ByHash(sync.Contents()) == map[h := blob, e := data];
    TrieDelivered(sync, keccak, t, known);
  }

  lemma FailsOnRoot(keccak: HashFunction, t: Node, known: iset<seq<Byte>>, callback: nat, leaf: S.Callback)
    requires Minimal(t) && Shaped(t) && Known(keccak, t, known) && S.Answer(OneLevel(keccak, t), callback, leaf).failed
    ensures DecodeNode(Blob(keccak, t)) == Some(OneLevel(keccak, t))
    ensures S.Fails(B.Trie(callback), Blob(keccak, t), leaf)
  {
    DecodeHeld(keccak, t);
    hide Enc, OneLevel, DecodeNode, Shaped, S.Answer;
  }

  lemma NothingStored(sync: S.Sync)
    requires sync.database == map[] && sync.batch == map[]
    ensures sync.Stored() == {}
  {
  }

  lemma AskedFor(rs: B.Requests, h: Digest, blob: seq<Byte>, e: Digest, callback: nat, emptyRoot: Id, emptyState: Id,
                 b: B.Books, b': B.Books)
    requires S.CutShort(map[Id(h) := B.Request(B.Trie(callback), Some(blob), [], 0, 0)], rs, Id(h), [S.RawEntry(e)],
                        {}, emptyRoot, emptyState, b, b')
    requires e != h && Id(e) != emptyState
    ensures rs == map[Id(h) := B.Request(B.Trie(callback), Some(blob), [], 0, 1),
                      Id(e) := B.Request(B.Raw, None, [Id(h)], 1, 0)]
    ensures Id(h) !in b'.stuck
  {
    var rs0 := map[Id(h) := B.Request(B.Trie(callback), Some(blob), [], 0, 0)];
    var entry := S.RawEntry(e);
    assert S.AddedAll(rs0, [entry][..0], 1, Id(h), {}, emptyRoot, emptyState) == rs0;
    assert rs == S.Added(rs0, entry, 1, Id(h), {}, emptyRoot, emptyState);
    var rs1 := rs0[Id(h) := rs0[Id(h)].(deps := 1)];
    assert rs == S.Scheduled(rs1, Id(e), B.Raw, 1, [Id(h)]) == rs1[Id(e) := B.Request(B.Raw, None, [Id(h)], 1, 0)];
    hide *;
    assert rs == map[Id(h) := B.Request(B.Trie(callback), Some(blob), [], 0, 1), Id(e) := B.Request(B.Raw, None, [Id(h)], 1, 0)];
  }

  lemma NotPending(sync: S.Sync, x: Id)
    requires sync.Valid() && x in sync.batch
    ensures x !in sync.requests
  {
    sync.InBatch(x);
  }

  /** Once the entry has come, the root waits for nothing. */
  lemma NothingLeft(sync: S.Sync, rs: B.Requests, h: Digest, e: Digest)
    requires sync.Valid() && S.Lessened(rs, sync.requests) && rs.Keys == {Id(h), Id(e)} && Id(e) !in sync.requests
    requires rs[Id(h)].parents == [] && rs[Id(h)].data.Some? && Id(h) !in sync.books.stuck
    ensures sync.requests == map[]
  {
    hide S.Sync.Valid;
    if Id(h) in sync.requests {
      assert sync.requests.Keys == {Id(h)};
      sync.LastRequest(Id(h));
    }
  }

  lemma BothStored(sync: S.Sync, h: Digest, blob: seq<Byte>, e: Digest, data: seq<Byte>)
    requires sync.Valid() && sync.requests == map[] && sync.roots == {Id(h)} && Id(e) in sync.batch && h != e
    requires sync.given == map[Id(h) := blob, Id(e) := data]
    ensures sync.Contents() == map[Id(h) := blob, Id(e) := data]
  {
    sync.NothingPending([Id(h)], 0);
    hide S.Sync.Valid;
    forall x | x in sync.Contents()
      ensures x in sync.given && sync.Contents()[x] == sync.given[x]
    {
      sync.StoredGiven(x);
    }
  }

  lemma KindKept(rs: B.Requests, kinds: map<Id, B.Kind>, rs1: B.Requests, kinds1: map<Id, B.Kind>, kinds2: map<Id, B.Kind>, x: Id)
    requires S.Steady(rs, kinds, rs1, kinds1) && S.Steady(rs1, kinds1, map[], kinds2) && x in rs
    ensures x in kinds2 && kinds2[x] == rs[x].kind
  {
  }

  lemma FailedInPart(sync: S.Sync, kind: B.Kind, data: seq<Byte>)
    requires S.Fails(kind, data, sync.leaf)
    ensures ReadInPart(sync, kind, data)
  {
    hide S.Fails;
  }

  /* Such a trie: two leaves, each too long to be embedded, and a value beside them. */

  const LONG_LEAF: Node := Short([TERMINATOR], Value(seq(32, _ => 1)))

  const TWO_LEAVES: Node :=
    Full([LONG_LEAF, LONG_LEAF, Nil, Nil, Nil, Nil, Nil, Nil, Nil, Nil, Nil, Nil, Nil, Nil, Nil, Nil, Value([1])])

  ghost predicate LeavesOf(c: seq<Node>, leaf: Node)
  {
    |c| == 17 && c[0] == leaf && c[16] == Value([1]) &&
    forall i :: 0 <= i < 17 ==> c[i] == leaf || c[i].Nil? || c[i] == Value([1])
  }

  /**
   The trie meets what `RawRoot` and `FailingCallback` ask of theirs, whatever the hash
   function, unless it sends the stored blobs to one hash.
   */
  lemma TwoLeaves(keccak: HashFunction, data: seq<Byte>)
    ensures Minimal(TWO_LEAVES) && Minimal(LONG_LEAF) && Shaped(TWO_LEAVES)
    ensures Id(RootHash(keccak, LONG_LEAF)) in S.HashChildren(OneLevel(keccak, TWO_LEAVES))
    ensures S.ValueChild(OneLevel(keccak, TWO_LEAVES)) == Some([1])
    ensures var h, blob, child := RootHash(keccak, TWO_LEAVES), Blob(keccak, TWO_LEAVES), RootHash(keccak, LONG_LEAF);
            var known := iset{blob, Blob(keccak, LONG_LEAF), data};
            Known(keccak, TWO_LEAVES, known) &&
            (h != child && h != keccak(data) && child != keccak(data) ==>
               Addressed(keccak, map[h := blob], known) && Addressed(keccak, map[h := blob, keccak(data) := data], known))
  {
    TwoLeavesMinimal();
    assert Blob(keccak, LONG_LEAF) == Enc(keccak, LONG_LEAF);
    assert Blob(keccak, TWO_LEAVES) == Enc(keccak, TWO_LEAVES);
    hide *;
    LongLeafSize(keccak);
    TwoLeavesSize(keccak);
    TwoLeavesChild(keccak);
    TwoLeavesKnown(keccak, iset{Blob(keccak, TWO_LEAVES), Blob(keccak, LONG_LEAF), data}, data);
  }

  lemma TwoLeavesMinimal()
    ensures Minimal(TWO_LEAVES) && Minimal(LONG_LEAF) && Shaped(TWO_LEAVES) && Shaped(LONG_LEAF)
    ensures TWO_LEAVES.Full? && LeavesOf(TWO_LEAVES.children, LONG_LEAF)
  {
    var c := TWO_LEAVES.children;
    assert !c[0].Nil? && !c[1].Nil?;
    MinimalShaped(LONG_LEAF);
    MinimalShaped(TWO_LEAVES);
  }

  lemma TwoLeavesChild(keccak: HashFunction)
    requires Minimal(LONG_LEAF) && Shaped(TWO_LEAVES) && |Blob(keccak, LONG_LEAF)| >= 32
    requires TWO_LEAVES.Full? && LeavesOf(TWO_LEAVES.children, LONG_LEAF)
    ensures Id(RootHash(keccak, LONG_LEAF)) in S.HashChildren(OneLevel(keccak, TWO_LEAVES))
    ensures S.ValueChild(OneLevel(keccak, TWO_LEAVES)) == Some([1])
  {
    hide TWO_LEAVES, Minimal, Enc;
    var m := RefNodes(keccak, TWO_LEAVES.children);
    assert m[0] == Hash(RootHash(keccak, LONG_LEAF)) && m[16] == Value([1]);
    assert m == [m[0]] + m[1..];
    HashesInHead(m[0], m[1..]);
    assert Id(RootHash(keccak, LONG_LEAF)) in S.HashesIn([m[0]]);
  }

  lemma TwoLeavesKnown(keccak: HashFunction, known: iset<seq<Byte>>, data: seq<Byte>)
    requires Minimal(LONG_LEAF) && Minimal(TWO_LEAVES)
    requires TWO_LEAVES.Full? && LeavesOf(TWO_LEAVES.children, LONG_LEAF)
    requires |Blob(keccak, LONG_LEAF)| < LIMIT && |Blob(keccak, TWO_LEAVES)| < LIMIT
    requires known == iset{Blob(keccak, TWO_LEAVES), Blob(keccak, LONG_LEAF), data}
    ensures Known(keccak, TWO_LEAVES, known)
    ensures var h, blob, child := RootHash(keccak, TWO_LEAVES), Blob(keccak, TWO_LEAVES), RootHash(keccak, LONG_LEAF);
            h != child && h != keccak(data) && child != keccak(data) ==>
              Addressed(keccak, map[h := blob], known) && Addressed(keccak, map[h := blob, keccak(data) := data], known)
  {
    hide TWO_LEAVES, Blob;
    assert Known(keccak, LONG_LEAF.val, known) && Known(keccak, LONG_LEAF, known);
  }

  lemma LongLeafSize(keccak: HashFunction)
    requires Shaped(LONG_LEAF)
    ensures 32 <= |Enc(keccak, LONG_LEAF)| < LIMIT
  {
    var key, value := Str(HexKeys.HexToCompact([TERMINATOR])), Str(LONG_LEAF.val.data);
    assert NodeItem(keccak, LONG_LEAF) == List([key, value]);
    assert [key, value] == [key] + [value];
    EncodeAllAppend([key], [value]);
    EncodeAllOne(key);
    EncodeAllOne(value);
    EncodedSize(key);
    EncodedSize(value);
    EncodedSize(List([key, value]));
  }

  lemma TwoLeavesSize(keccak: HashFunction)
    requires Shaped(TWO_LEAVES) && Shaped(LONG_LEAF) && |Enc(keccak, LONG_LEAF)| >= 32
    requires TWO_LEAVES.Full? && LeavesOf(TWO_LEAVES.children, LONG_LEAF)
    ensures |Enc(keccak, TWO_LEAVES)| < LIMIT
  {
    var items := RefItems(keccak, TWO_LEAVES.children);
    assert NodeItem(keccak, TWO_LEAVES) == List(items);
    hide TWO_LEAVES, LONG_LEAF, Shaped, Encode, EncodeAll;
    forall i | 0 <= i < 17
      ensures |Encode(items[i])| <= 41
    {
      RefSize(keccak, TWO_LEAVES.children[i]);
    }
    EncodeAllSize(items);
    EncodedSize(List(items));
  }

  lemma RefSize(keccak: HashFunction, v: Node)
    requires v.Nil? || v == Value([1]) || (Shaped(v) && |Enc(keccak, v)| >= 32)
    ensures |Encode(RefItem(keccak, v))| <= 41
  {
    hide Encode;
    EncodedSize(RefItem(keccak, v));
  }

  /** A header is at most nine bytes long. */
  lemma EncodedSize(item: Item)
    ensures var content := if item.Str? then item.data else EncodeAll(item.items);
            |content| <= |Encode(item)| <= |content| + 9
  {
    var n := if item.Str? then |item.data| else |EncodeAll(item.items)|;
    BigEndianEight(n % LIMIT);
  }

  lemma {:induction false} EncodeAllSize(items: seq<Item>)
    requires forall i :: 0 <= i < |items| ==> |Encode(items[i])| <= 41
    ensures |EncodeAll(items)| <= 41 * |items|
  {
    if items != [] {
      assert EncodeAll(items) == Encode(items[0]) + EncodeAll(items[1..]);
      hide Encode, EncodeAll;
      EncodeAllSize(items[1..]);
    }
  }

  /* ---- The write cache ---- */

  /** The name stands for a node, and for the names inside that node, as `insert` is given them. */
  ghost predicate StandsForNode(c: C.Content)
  {
    DecodeNode(c.blob).Some? && c.refs == Gather(DecodeNode(c.blob).value)
  }

  ghost function InsertedNodes(db: D.Database): (nodes: iset<Digest>)
  {
    iset h: Digest | StandsForNode(db.content(Id(h)))
  }

  /** A trie whose root is stored, as it is after the root was committed, is stored in full. */
  lemma CommittedReopens(db: D.Database, keccak: HashFunction, t: Node, known: iset<seq<Byte>>)
    requires db.Valid() && Minimal(t) && Id(RootHash(keccak, t)) in db.disk
    requires Known(keccak, t, known) && Addressed(keccak, ByHash(db.disk), known)
    requires RootHash(keccak, t) in InsertedNodes(db) && NodesIn(keccak, t, InsertedNodes(db))
    ensures Represents(Opened(ByHash(db.disk)), Hash(RootHash(keccak, t)), t)
  {
    var disk, nodes := ByHash(db.disk), InsertedNodes(db);
    forall h | h in nodes && h in disk
      ensures AllIn(Gather(DecodeNode(disk[h]).value), disk)
    {
      InsertedClosed(db, h);
      hide DecodeNode, Gather;
    }
    ClosedReopens(keccak, disk, t, known, nodes);
    hide Known, Addressed, NodesIn, Represents, Opened, Minimal;
  }

  lemma InsertedClosed(db: D.Database, h: Digest)
    requires db.Valid() && h in InsertedNodes(db) && Id(h) in db.disk
    ensures db.disk[Id(h)] == db.content(Id(h)).blob
    ensures AllIn(db.content(Id(h)).refs, ByHash(db.disk))
  {
    var refs := db.content(Id(h)).refs;
    forall c | c in refs
      ensures c.Id? && c in db.disk
    {
      assert c in multiset(refs);
      assert multiset(refs) <= db.below[Id(h)];
    }
    hide DecodeNode, Gather;
  }
}
