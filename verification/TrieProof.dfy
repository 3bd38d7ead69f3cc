/**
 Merkle proofs.  A proof database holds encoded nodes by hash; verification walks
 down from the root hash, reading one stored node at a time.
 */
module TrieProof {
  import opened Bytes
  import opened TrieNode
  import opened TrieResolve
  import opened TrieCodec
  import opened TrieStorage
  import opened HexKeys
  import opened RlpFormat

  /* ---- VerifyProof ---- */

  datatype Found = Absent | Present(data: seq<Byte>) | Further(rest: Key, digest: Digest) | KeyExhausted

  /**
   `get`: follows `key` through one stored node and whatever is embedded in it.  A
   full node below the end of the key, where the source indexes an empty key, is
   the outcome `KeyExhausted`.
   */
  function Get(n: Node, key: Key): (r: Found)
    ensures r.Further? ==> r.rest == key || |r.rest| < |key|
  {
    match n
    case Nil => Absent
    case Value(data) => Found.Present(data)
    case Hash(h) => Further(key, h)
    case Short(k, v) => if k <= key then Get(v, key[|k|..]) else Absent
    case Full(c) => if key == [] || key[0] >= |c| then KeyExhausted else Get(c[key[0]], key[1..])
  }

  /** `Panics`: the key ended inside a full node.  `Endless`: the walk never ends. */
  datatype Verdict =
    | Verified(value: Option<seq<Byte>>)
    | NodeMissing(digest: Digest)
    | BadNode
    | Panics
    | Endless

  datatype Round = Over(verdict: Verdict) | On(root: Digest, key: Key)

  /** One round of the loop of `VerifyProof`. */
  function OneRound(root: Digest, key: Key, db: Disk): (r: Round)
    ensures if r.On? then root in db && (r.key == key || |r.key| < |key|) else !r.verdict.Endless?
  {
    if root !in db then Over(NodeMissing(root))
    else
      match DecodeNode(db[root])
      case None => Over(BadNode)
      case Some(n) =>
        match Get(n, key)
        case Absent => Over(Verified(None))
        case Present(data) => Over(Verified(Some(data)))
        case KeyExhausted => Over(Panics)
        case Further(rest, h) => On(h, rest)
  }

  /** What the loop has come to after at most `n` rounds. */
  ghost function Walk(root: Digest, key: Key, db: Disk, n: nat): (v: Option<Verdict>)
    decreases n
  {
    if n == 0 then None
    else
      match OneRound(root, key, db)
      case Over(v) => Some(v)
      case On(h, rest) => Walk(h, rest, db, n - 1)
  }

  /**
   The outcome of the loop.  A stored node may consume nothing of the key, so the walk can
   come back to a node in `seen`, those it passed since the key last became shorter.
   */
  function VerifyFrom(root: Digest, key: Key, db: Disk, seen: set<Digest>): (v: Verdict)
    requires root !in seen
    decreases |key|, |db.Keys - seen|
  {
    match OneRound(root, key, db)
    case Over(v) => v
    case On(h, rest) =>
      if |rest| < |key| then VerifyFrom(h, rest, db, {})
      else if h in seen + {root} then Endless
      else
        FewerUnseen(db.Keys, seen, root);
        VerifyFrom(h, rest, db, seen + {root})
  }

  lemma FewerUnseen(all: set<Digest>, seen: set<Digest>, d: Digest)
    requires d in all && d !in seen
    ensures |all - (seen + {d})| < |all - seen|
  {
    assert all - (seen + {d}) == (all - seen) - {d};
  }

  function Verify(root: Digest, key: Key, db: Disk): (v: Verdict)
  {
    VerifyFrom(root, key, db, {})
  }

  /** Each node in `seen` leads on, with the same key, to one in `seen` or to `root`. */
  ghost predicate LeadsOn(seen: set<Digest>, root: Digest, key: Key, db: Disk)
  {
    forall d :: d in seen ==>
      var r := OneRound(d, key, db);
      r.On? && r.key == key && r.root in seen + {root}
  }

  lemma {:induction false} RoundAndRound(seen: set<Digest>, root: Digest, key: Key, db: Disk, d: Digest, n: nat)
    requires LeadsOn(seen, root, key, db) && root in seen && d in seen
    ensures Walk(d, key, db, n).None?
    decreases n
  {
    hide OneRound;
    if n > 0 {
      RoundAndRound(seen, root, key, db, OneRound(d, key, db).root, n - 1);
    }
  }

  /** `v` is how the loop ends, after some number of rounds; `Endless` if after none. */
  ghost predicate EndsWith(root: Digest, key: Key, db: Disk, v: Verdict)
  {
    if v.Endless? then forall n: nat :: Walk(root, key, db, n).None? else exists n: nat :: Walk(root, key, db, n) == Some(v)
  }

  lemma EndsLater(root: Digest, key: Key, db: Disk, v: Verdict)
    requires OneRound(root, key, db).On?
    requires EndsWith(OneRound(root, key, db).root, OneRound(root, key, db).key, db, v)
    ensures EndsWith(root, key, db, v)
  {
    hide OneRound;
    var h, rest := OneRound(root, key, db).root, OneRound(root, key, db).key;
    if v.Endless? {
      forall n: nat
        ensures Walk(root, key, db, n).None?
      {
        assert n > 0 ==> Walk(root, key, db, n) == Walk(h, rest, db, n - 1);
      }
    } else {
      var n: nat :| Walk(h, rest, db, n) == Some(v);
      assert Walk(root, key, db, n + 1) == Walk(h, rest, db, n);
    }
  }

  lemma {:induction false} VerifyFromEnds(root: Digest, key: Key, db: Disk, seen: set<Digest>)
    requires root !in seen && LeadsOn(seen, root, key, db)
    ensures EndsWith(root, key, db, VerifyFrom(root, key, db, seen))
    decreases |key|, |db.Keys - seen|
  {
    hide OneRound;
    var r, v := OneRound(root, key, db), VerifyFrom(root, key, db, seen);
    if r.Over? {
      assert Walk(root, key, db, 1) == Some(v);
    } else if |r.key| < |key| {
      VerifyFromEnds(r.root, r.key, db, {});
      EndsLater(root, key, db, v);
    } else if r.root in seen + {root} {
      forall n: nat
        ensures Walk(root, key, db, n).None?
      {
        RoundAndRound(seen + {root}, root, key, db, root, n);
      }
    } else {
      FewerUnseen(db.Keys, seen, root);
      VerifyFromEnds(r.root, r.key, db, seen + {root});
      EndsLater(root, key, db, v);
    }
  }

  /** `Verify` is exactly how the loop ends. */
  lemma VerifyEnds(root: Digest, key: Key, db: Disk)
    ensures EndsWith(root, key, db, Verify(root, key, db))
  {
    VerifyFromEnds(root, key, db, {});
  }

  /** `VerifyProof`; where the source goes round for ever, this stops and says so. */
  method VerifyProof(root: Digest, keyBytes: seq<Byte>, db: Disk) returns (v: Verdict)
    ensures v == Verify(root, KeyToHex(keyBytes), db)
  {
    var key := KeybytesToHex(keyBytes);
    var want, seen := root, {};
    while true
      invariant want !in seen && Verify(root, KeyToHex(keyBytes), db) == VerifyFrom(want, key, db, seen)
      decreases |key|, |db.Keys - seen|
    {
      if want !in db {
        return NodeMissing(want);
      }
      var n := DecodeNode(db[want]);
      if n.None? {
        return BadNode;
      }
      var found := Get(n.value, key);
      match found {
        case Absent => return Verified(None);
        case Present(data) => return Verified(Some(data));
        case KeyExhausted => return Panics;
        case Further(rest, h) =>
          FewerUnseen(db.Keys, seen, want);
          seen := if |rest| < |key| then {} else seen + {want};
          if h in seen {
            return Endless;
          }
          key, want := rest, h;
      }
    }
  }

  /* ---- What a stored node says about the trie below it ---- */

  datatype Step = Leaf | Down(rest: Key, below: Node)

  /** The subtrie at which `key` leaves the stored form of `t`, if it does. */
  ghost function Descend(keccak: HashFunction, t: Node, key: Key): (s: Step)
    requires Minimal(t)
    ensures s.Down? ==> Minimal(s.below) && s.below < t
    decreases t, 0
  {
    match t
    case Short(k, v) => if k <= key then DescendRef(keccak, v, key[|k|..], t) else Leaf
    case Full(c) => if key != [] && key[0] < |c| then DescendRef(keccak, c[key[0]], key[1..], t) else Leaf
  }

  ghost function DescendRef(keccak: HashFunction, v: Node, key: Key, above: Node): (s: Step)
    requires v < above && Slot(v)
    ensures s.Down? ==> Minimal(s.below) && s.below < above
    decreases v, 1
  {
    if !Minimal(v) then Leaf
    else if |Blob(keccak, v)| < 32 then Descend(keccak, v, key)
    else Down(key, v)
  }

  function Answer(value: Option<seq<Byte>>): (r: Found)
  {
    match value
    case None => Absent
    case Some(data) => Found.Present(data)
  }

  /** Following a key through a stored node agrees with the trie, up to the next hash. */
  lemma {:induction false} GetOneLevel(keccak: HashFunction, t: Node, key: Key)
    requires Minimal(t) && Shaped(t) && Terminated(key)
    ensures var s := Descend(keccak, t, key);
            if s.Leaf? then Get(OneLevel(keccak, t), key) == Answer(Lookup(t, key))
            else
              Get(OneLevel(keccak, t), key) == Further(s.rest, RootHash(keccak, s.below)) &&
              Terminated(s.rest) && |s.rest| < |key| && Lookup(t, key) == Lookup(s.below, s.rest)
    decreases t, 0
  {
    match t
    case Short(k, v) =>
      if k <= key {
        FitsVal(k, v, key);
        GetRef(keccak, v, key[|k|..], t);
      }
    case Full(c) =>
      FitsChild(c, key);
      GetRef(keccak, c[key[0]], key[1..], t);
  }

  lemma {:induction false} GetRef(keccak: HashFunction, v: Node, key: Key, above: Node)
    requires v < above && Slot(v) && Fits(v, key) && (Minimal(v) ==> Shaped(v))
    ensures var s := DescendRef(keccak, v, key, above);
            if s.Leaf? then Get(RefNode(keccak, v), key) == Answer(Lookup(v, key))
            else
              Get(RefNode(keccak, v), key) == Further(s.rest, RootHash(keccak, s.below)) &&
              Terminated(s.rest) && |s.rest| <= |key| && Lookup(v, key) == Lookup(s.below, s.rest)
    decreases v, 1
  {
    if Minimal(v) && |Blob(keccak, v)| < 32 {
      GetOneLevel(keccak, v, key);
    }
  }

  /* ---- The elements of a proof ---- */

  /** The stored nodes on the way to `key`, from the root down. */
  ghost function Elements(keccak: HashFunction, t: Node, key: Key): (blobs: seq<seq<Byte>>)
    requires Minimal(t)
    decreases t
  {
    var s := Descend(keccak, t, key);
    [Blob(keccak, t)] + if s.Leaf? then [] else Elements(keccak, s.below, s.rest)
  }

  /** The hash of the first proof element that `db` lacks. */
  ghost function FirstMissing(keccak: HashFunction, blobs: seq<seq<Byte>>, db: Disk): (h: Option<Digest>)
    ensures h.None? <==> forall b :: b in blobs ==> keccak(b) in db
  {
    if blobs == [] then None
    else if keccak(blobs[0]) !in db then Some(keccak(blobs[0]))
    else
      assert blobs == [blobs[0]] + blobs[1..];
      FirstMissing(keccak, blobs[1..], db)
  }

  /** What `db` holds under the hashes of `blobs` is `blobs`. */
  ghost predicate Agrees(keccak: HashFunction, blobs: seq<seq<Byte>>, db: Disk)
  {
    forall b :: b in blobs && keccak(b) in db ==> db[keccak(b)] == b
  }

  /** One round of the walk, on the stored form of `t`. */
  lemma VerifyStep(keccak: HashFunction, t: Node, key: Key, db: Disk)
    requires Minimal(t) && Terminated(key) && Has(keccak, db, t) && |Blob(keccak, t)| < LIMIT
    ensures var s := Descend(keccak, t, key);
            Verify(RootHash(keccak, t), key, db) ==
              (if s.Leaf? then Verified(Lookup(t, key)) else Verify(RootHash(keccak, s.below), s.rest, db)) &&
            (s.Down? ==> Terminated(s.rest) && Lookup(t, key) == Lookup(s.below, s.rest))
  {
    hide *;
    HasDecodes(keccak, db, t);
    var root, n := RootHash(keccak, t), OneLevel(keccak, t);
    GetOneLevel(keccak, t, key);
    var s := Descend(keccak, t, key);
    VerifyRound(root, key, db, n);
    AnswerFound(Lookup(t, key));
  }

  lemma AnswerFound(value: Option<seq<Byte>>)
    ensures Answer(value) == if value.None? then Absent else Found.Present(value.value)
  {
  }

  lemma VerifyRound(root: Digest, key: Key, db: Disk, n: Node)
    requires root in db && DecodeNode(db[root]) == Some(n)
    ensures var r := Get(n, key);
            (r == Absent ==> Verify(root, key, db) == Verified(None)) &&
            (r.Present? ==> Verify(root, key, db) == Verified(Some(r.data))) &&
            (r.Further? && |r.rest| < |key| ==> Verify(root, key, db) == Verify(r.digest, r.rest, db))
  {
    hide Get, DecodeNode;
    assert VerifyFrom(root, key, db, {}) == Verify(root, key, db);
  }

  /**
   Where the database agrees with the trie, verification gives exactly what the
   trie holds, present or absent, and fails exactly when an element is missing.
   */
  lemma {:induction false} VerifyAgrees(
      keccak: HashFunction, t: Node, key: Key, db: Disk, known: iset<seq<Byte>>)
    requires Minimal(t) && Terminated(key) && Known(keccak, t, known)
    requires Agrees(keccak, Elements(keccak, t, key), db)
    ensures var missing := FirstMissing(keccak, Elements(keccak, t, key), db);
            Verify(RootHash(keccak, t), key, db) ==
            if missing.None? then Verified(Lookup(t, key)) else NodeMissing(missing.value)
    decreases t
  {
    var s := Descend(keccak, t, key);
    var blobs := Elements(keccak, t, key);
    assert blobs[0] == Blob(keccak, t);
    if RootHash(keccak, t) in db {
      assert Has(keccak, db, t);
      VerifyStep(keccak, t, key, db);
      hide Descend, Lookup, Blob, Verify;
      if s.Down? {
        KnownBelow(keccak, t, key, known);
        assert blobs[1..] == Elements(keccak, s.below, s.rest);
        VerifyAgrees(keccak, s.below, s.rest, db, known);
      } else {
        assert blobs[1..] == [];
      }
    }
  }

  lemma {:induction false} KnownBelow(keccak: HashFunction, t: Node, key: Key, known: iset<seq<Byte>>)
    requires Minimal(t) && Known(keccak, t, known)
    ensures var s := Descend(keccak, t, key);
            s.Down? ==> Known(keccak, s.below, known)
    decreases t, 0
  {
    match t
    case Short(k, v) =>
      if k <= key {
        KnownBelowRef(keccak, v, key[|k|..], t, known);
      }
    case Full(c) =>
      if key != [] {
        KnownBelowRef(keccak, c[key[0]], key[1..], t, known);
      }
  }

  lemma {:induction false} KnownBelowRef(
      keccak: HashFunction, v: Node, key: Key, above: Node, known: iset<seq<Byte>>)
    requires v < above && Slot(v) && Known(keccak, v, known)
    ensures var s := DescendRef(keccak, v, key, above);
            s.Down? ==> Known(keccak, s.below, known)
    decreases v, 1
  {
    if Minimal(v) && |Blob(keccak, v)| < 32 {
      KnownBelow(keccak, v, key, known);
    }
  }

  /** In a database addressed by content, an accepted proof agrees with the trie. */
  lemma VerifySound(keccak: HashFunction, t: Node, key: Key, db: Disk, known: iset<seq<Byte>>)
    requires Minimal(t) && Terminated(key) && Known(keccak, t, known) && Addressed(keccak, db, known)
    ensures var v := Verify(RootHash(keccak, t), key, db);
            v == Verified(Lookup(t, key)) || v.NodeMissing?
  {
    ElementsKnown(keccak, t, key, known);
    VerifyAgrees(keccak, t, key, db, known);
  }

  lemma {:induction false} ElementsKnown(keccak: HashFunction, t: Node, key: Key, known: iset<seq<Byte>>)
    requires Minimal(t) && Known(keccak, t, known)
    ensures forall b :: b in Elements(keccak, t, key) ==> b in known
    decreases t
  {
    KnownTop(keccak, t, known);
    KnownBelow(keccak, t, key, known);
    hide Descend, Blob, Known;
    var s := Descend(keccak, t, key);
    if s.Down? {
      ElementsKnown(keccak, s.below, s.rest, known);
    }
  }

  /* ---- Prove ---- */

  /** The nodes of `t` on the way to `key`. */
  ghost function Path(t: Node, key: Key): (path: seq<Node>)
    requires Fits(t, key)
    ensures forall i :: 0 <= i < |path| ==> Minimal(path[i])
    decreases t
  {
    if key == [] || t.Nil? then []
    else
      match t
      case Short(k, v) =>
        if k <= key then
          FitsVal(k, v, key);
          [t] + Path(v, key[|k|..])
        else [t]
      case Full(c) =>
        FitsChild(c, key);
        [t] + Path(c[key[0]], key[1..])
  }

  /** The stored forms of those nodes of a path that are stored: the root, if `first`, and the large ones. */
  ghost function Selected(keccak: HashFunction, path: seq<Node>, first: bool): (blobs: seq<seq<Byte>>)
    requires forall i :: 0 <= i < |path| ==> Minimal(path[i])
  {
    if path == [] then []
    else
      var b := Blob(keccak, path[0]);
      (if first || |b| >= 32 then [b] else []) + Selected(keccak, path[1..], false)
  }

  lemma {:induction false} SelectedPath(keccak: HashFunction, t: Node, key: Key)
    requires Minimal(t) && Terminated(key) && Fits(t, key)
    ensures var path, s := Path(t, key), Descend(keccak, t, key);
            path != [] && path[0] == t &&
            Selected(keccak, path[1..], false) == (if s.Leaf? then [] else Elements(keccak, s.below, s.rest)) &&
            Selected(keccak, path, true) == Elements(keccak, t, key)
    decreases t, 0
  {
    match t
    case Short(k, v) =>
      if k <= key {
        FitsVal(k, v, key);
        SelectedRef(keccak, v, key[|k|..], t);
      }
    case Full(c) =>
      FitsChild(c, key);
      SelectedRef(keccak, c[key[0]], key[1..], t);
  }

  lemma {:induction false} SelectedRef(keccak: HashFunction, v: Node, key: Key, above: Node)
    requires v < above && Slot(v) && Fits(v, key)
    ensures var s := DescendRef(keccak, v, key, above);
            Selected(keccak, Path(v, key), false) == if s.Leaf? then [] else Elements(keccak, s.below, s.rest)
    decreases v, 1
  {
    if Minimal(v) {
      SelectedPath(keccak, v, key);
    }
  }

  function PutAll(keccak: HashFunction, blobs: seq<seq<Byte>>, db: Disk): (db': Disk)
  {
    if blobs == [] then db else PutAll(keccak, blobs[1..], db[keccak(blobs[0]) := blobs[0]])
  }

  ghost function Drop(n: nat, blobs: seq<seq<Byte>>): (rest: seq<seq<Byte>>)
  {
    if n <= |blobs| then blobs[n..] else []
  }

  /** Resolving a hash node of a loaded trie gives the stored form of the trie it stands for. */
  lemma LoadStored(keccak: HashFunction, disk: Disk, h: Digest, t: Node, known: iset<seq<Byte>>)
    requires Slot(t) && Loaded(keccak, Hash(h), t) && Known(keccak, t, known) && Addressed(keccak, disk, known)
    requires h in disk
    ensures Shaped(t) && DecodeNode(disk[h]) == Some(OneLevel(keccak, t))
    ensures Loaded(keccak, OneLevel(keccak, t), t)
  {
    KnownTop(keccak, t, known);
    assert Has(keccak, disk, t);
    HasDecodes(keccak, disk, t);
    OneLevelLoaded(keccak, t);
  }

  /** `nodes` are loaded forms of the nodes in `path`. */
  ghost predicate Encodings(keccak: HashFunction, nodes: seq<Node>, path: seq<Node>)
  {
    |nodes| == |path| &&
    forall i :: 0 <= i < |path| ==>
      Shaped(nodes[i]) && Minimal(path[i]) && Enc(keccak, nodes[i]) == Blob(keccak, path[i])
  }

  lemma EncodingsGrow(keccak: HashFunction, nodes: seq<Node>, path: seq<Node>, n: Node, t: Node)
    requires Encodings(keccak, nodes, path) && Minimal(t) && !n.Hash? && Loaded(keccak, n, t)
    ensures Encodings(keccak, nodes + [n], path + [t])
  {
    LoadedItem(keccak, n, t);
    hide Minimal, Shaped, Enc, Blob;
  }

  /** Having collected `nodes`, `tn` is reached with `key` left; `tt` is what `tn` stands for. */
  ghost predicate Collecting(keccak: HashFunction, known: iset<seq<Byte>>, whole: seq<Node>,
                             nodes: seq<Node>, tn: Node, key: Key, path: seq<Node>, tt: Node)
  {
    Fits(tt, key) && Slot(tt) && Loaded(keccak, tn, tt) && Known(keccak, tt, known) &&
    path + Path(tt, key) == whole && Encodings(keccak, nodes, path)
  }

  lemma CollectStart(keccak: HashFunction, known: iset<seq<Byte>>, root: Node, keyBytes: seq<Byte>, t: Node)
    requires Minimal(t) && Loaded(keccak, root, t) && Known(keccak, t, known)
    ensures var key := KeyToHex(keyBytes);
            Fits(t, key) && Terminated(key) && Collecting(keccak, known, Path(t, key), [], root, key, [], t)
  {
    KeyToHexTerminated(keyBytes);
    var key := KeyToHex(keyBytes);
    hide KeyToHex, Known, Loaded;
    assert Fits(t, key);
    assert [] + Path(t, key) == Path(t, key);
  }

  lemma CollectHash(keccak: HashFunction, known: iset<seq<Byte>>, whole: seq<Node>,
                    nodes: seq<Node>, h: Digest, key: Key, path: seq<Node>, tt: Node, disk: Disk)
    requires Collecting(keccak, known, whole, nodes, Hash(h), key, path, tt)
    requires Addressed(keccak, disk, known) && h in disk
    ensures DecodeNode(disk[h]).Some? && !DecodeNode(disk[h]).value.Hash?
    ensures Collecting(keccak, known, whole, nodes, DecodeNode(disk[h]).value, key, path, tt)
  {
    LoadStored(keccak, disk, h, tt, known);
  }

  lemma CollectShort(keccak: HashFunction, known: iset<seq<Byte>>, whole: seq<Node>,
                     nodes: seq<Node>, n: Node, key: Key, path: seq<Node>, tt: Node)
    requires Collecting(keccak, known, whole, nodes, n, key, path, tt) && n.Short? && key != []
    ensures tt.Short? && n.key != []
    ensures if n.key <= key
            then Collecting(keccak, known, whole, nodes + [n], n.val, key[|n.key|..], path + [tt], tt.val)
            else Collecting(keccak, known, whole, nodes + [n], Nil, key, path + [tt], Nil)
  {
    hide *;
    CollectingParts(keccak, known, whole, nodes, n, key, path, tt);
    EncodingsGrow(keccak, nodes, path, n, tt);
    ShortStep(keccak, n, key, tt, known);
    if n.key <= key {
      var rest := Path(tt.val, key[|n.key|..]);
      assert path + ([tt] + rest) == (path + [tt]) + rest;
      CollectingIs(keccak, known, whole, nodes + [n], n.val, key[|n.key|..], path + [tt], tt.val);
    } else {
      assert (path + [tt]) + [] == path + [tt];
      CollectingIs(keccak, known, whole, nodes + [n], Nil, key, path + [tt], Nil);
    }
  }

  lemma CollectingParts(keccak: HashFunction, known: iset<seq<Byte>>, whole: seq<Node>,
                        nodes: seq<Node>, n: Node, key: Key, path: seq<Node>, tt: Node)
    requires Collecting(keccak, known, whole, nodes, n, key, path, tt) && (n.Short? || n.Full?) && key != []
    ensures Minimal(tt) && Slot(tt) && Fits(tt, key) && Terminated(key)
    ensures Loaded(keccak, n, tt) && Known(keccak, tt, known)
    ensures path + Path(tt, key) == whole && Encodings(keccak, nodes, path)
  {
    hide Minimal, Terminated, Known, Path, Encodings;
  }

  lemma ShortStep(keccak: HashFunction, n: Node, key: Key, t: Node, known: iset<seq<Byte>>)
    requires Minimal(t) && Terminated(key) && Fits(t, key)
    requires n.Short? && Loaded(keccak, n, t) && Known(keccak, t, known)
    ensures t.Short? && t.key == n.key != []
    ensures if n.key <= key then
              var rest := key[|n.key|..];
              Fits(t.val, rest) && Slot(t.val) && Loaded(keccak, n.val, t.val) && Known(keccak, t.val, known) &&
              Path(t, key) == [t] + Path(t.val, rest)
            else
              Fits(Nil, key) && Slot(Nil) && Loaded(keccak, Nil, Nil) && Known(keccak, Nil, known) &&
              Path(Nil, key) == [] && Path(t, key) == [t]
  {
    if n.key <= key {
      FitsVal(t.key, t.val, key);
    }
  }

  lemma CollectFull(keccak: HashFunction, known: iset<seq<Byte>>, whole: seq<Node>,
                    nodes: seq<Node>, n: Node, key: Key, path: seq<Node>, tt: Node)
    requires Collecting(keccak, known, whole, nodes, n, key, path, tt) && n.Full? && key != []
    ensures tt.Full? && |tt.children| == |n.children| == 17
    ensures Collecting(keccak, known, whole, nodes + [n], n.children[key[0]], key[1..],
                       path + [tt], tt.children[key[0]])
  {
    hide *;
    CollectingParts(keccak, known, whole, nodes, n, key, path, tt);
    EncodingsGrow(keccak, nodes, path, n, tt);
    FullStep(keccak, n, key, tt, known);
    var rest := Path(tt.children[key[0]], key[1..]);
    assert path + ([tt] + rest) == (path + [tt]) + rest;
    CollectingIs(keccak, known, whole, nodes + [n], n.children[key[0]], key[1..], path + [tt], tt.children[key[0]]);
  }

  lemma FullStep(keccak: HashFunction, n: Node, key: Key, t: Node, known: iset<seq<Byte>>)
    requires Minimal(t) && Terminated(key) && Fits(t, key)
    requires n.Full? && Loaded(keccak, n, t) && Known(keccak, t, known)
    ensures t.Full? && |t.children| == |n.children| == 17
    ensures var child := t.children[key[0]];
            Fits(child, key[1..]) && Slot(child) && Loaded(keccak, n.children[key[0]], child) &&
            Known(keccak, child, known) && Path(t, key) == [t] + Path(child, key[1..])
  {
    FitsChild(t.children, key);
  }

  lemma CollectingIs(keccak: HashFunction, known: iset<seq<Byte>>, whole: seq<Node>,
                     nodes: seq<Node>, tn: Node, key: Key, path: seq<Node>, tt: Node)
    requires Fits(tt, key) && Slot(tt) && Loaded(keccak, tn, tt) && Known(keccak, tt, known)
    requires path + Path(tt, key) == whole && Encodings(keccak, nodes, path)
    ensures Collecting(keccak, known, whole, nodes, tn, key, path, tt)
  {
    hide Fits, Slot, Loaded, Known, Path, Encodings;
  }

  lemma CollectDone(keccak: HashFunction, known: iset<seq<Byte>>, whole: seq<Node>,
                    nodes: seq<Node>, n: Node, key: Key, path: seq<Node>, tt: Node)
    requires Collecting(keccak, known, whole, nodes, n, key, path, tt)
    ensures n.Value? ==> key == []
    ensures n.Nil? || key == [] ==> Encodings(keccak, nodes, whole)
  {
    LoadedShaped(keccak, n, tt);
  }

  /** The first loop of `Prove`: the nodes on the way to the key, loading what is not loaded. */
  method Collect(keccak: HashFunction, disk: Disk, root: Node, keyBytes: seq<Byte>,
                 ghost t: Node, ghost known: iset<seq<Byte>>)
    returns (r: Outcome<seq<Node>>)
    requires Minimal(t) && Loaded(keccak, root, t) && Known(keccak, t, known) && Addressed(keccak, disk, known)
    ensures r.Missing? ==> r.digest !in disk
    ensures Fits(t, KeyToHex(keyBytes))
    ensures r.Ok? ==> Encodings(keccak, r.value, Path(t, KeyToHex(keyBytes)))
  {
    hide *;
    var key := KeybytesToHex(keyBytes);
    CollectStart(keccak, known, root, keyBytes, t);
    var tn := root;
    ghost var tt, path := t, [];
    var nodes: seq<Node> := [];
    ghost var whole := Path(t, key);
    while key != [] && tn != Nil
      invariant Collecting(keccak, known, whole, nodes, tn, key, path, tt)
      decreases |key|, if tn.Hash? then 2 else if tn.Nil? then 0 else 1
    {
      CollectDone(keccak, known, whole, nodes, tn, key, path, tt);
      match tn {
        case Hash(h) =>
          if h !in disk {
            return Missing(h);
          }
          CollectHash(keccak, known, whole, nodes, h, key, path, tt, disk);
          tn := DecodeNode(disk[h]).value;
        case Short(k, v) =>
          CollectShort(keccak, known, whole, nodes, tn, key, path, tt);
          nodes, path := nodes + [tn], path + [tt];
          if k <= key {
            key, tn, tt := key[|k|..], v, tt.val;
          } else {
            tn, tt := Nil, Nil;
          }
        case Full(c) =>
          CollectFull(keccak, known, whole, nodes, tn, key, path, tt);
          nodes, path := nodes + [tn], path + [tt];
          tn, tt, key := c[key[0]], tt.children[key[0]], key[1..];
        case _ => assert false;
      }
    }
    CollectDone(keccak, known, whole, nodes, tn, key, path, tt);
    return Ok(nodes);
  }

  lemma DropStep(n: nat, b: seq<Byte>, rest: seq<seq<Byte>>)
    ensures Drop(n, [b] + rest) == if n > 0 then Drop(n - 1, rest) else [b] + rest
    ensures Drop(0, rest) == rest
  {
  }

  lemma PutStep(keccak: HashFunction, b: seq<Byte>, rest: seq<seq<Byte>>, db: Disk)
    ensures PutAll(keccak, [b] + rest, db) == PutAll(keccak, rest, db[keccak(b) := b])
  {
    assert ([b] + rest)[1..] == rest;
  }

  lemma PutNothing(keccak: HashFunction, path: seq<Node>, level: nat, db: Disk)
    requires path == []
    ensures forall first :: PutAll(keccak, Drop(level, Selected(keccak, path, first)), db) == db
  {
  }

  lemma SelectedStep(keccak: HashFunction, path: seq<Node>, i: nat, first: bool)
    requires i < |path| && forall i :: 0 <= i < |path| ==> Minimal(path[i])
    ensures Selected(keccak, path[i..], first) ==
            (if first || |Blob(keccak, path[i])| >= 32 then [Blob(keccak, path[i])] else []) +
            Selected(keccak, path[i + 1..], false)
  {
    assert path[i..][1..] == path[i + 1..];
    hide Blob, Minimal;
  }

  /** The second loop of `Prove`: each stored node of the path becomes a proof element, after `fromLevel` of them. */
  method WriteElements(keccak: HashFunction, nodes: seq<Node>, fromLevel: nat, proofDb: Disk, ghost path: seq<Node>)
    returns (out: Disk)
    requires Encodings(keccak, nodes, path)
    ensures out == PutAll(keccak, Drop(fromLevel, Selected(keccak, path, true)), proofDb)
  {
    out := proofDb;
    var level := fromLevel;
    ghost var first := true;
    hide Enc, Blob, Minimal, Shaped, PutAll, Drop, Selected;
    assert path[0..] == path;
    for i := 0 to |nodes|
      invariant first <==> i == 0
      invariant PutAll(keccak, Drop(level, Selected(keccak, path[i..], first)), out) ==
                PutAll(keccak, Drop(fromLevel, Selected(keccak, path, true)), proofDb)
    {
      var enc := Enc(keccak, nodes[i]);
      ghost var rest := Selected(keccak, path[i + 1..], false);
      SelectedStep(keccak, path, i, first);
      first := false;
      if |enc| >= 32 || i == 0 {
        DropStep(level, enc, rest);
        if level > 0 {
          level := level - 1;
        } else {
          PutStep(keccak, enc, rest, out);
          out := out[keccak(enc) := enc];
        }
      } else {
        assert [] + rest == rest;
      }
    }
    PutNothing(keccak, path[|path|..], level, out);
  }

  /** `Prove` for a non-empty trie: writes the stored nodes on the way to the key, skipping `fromLevel`. */
  method Prove(keccak: HashFunction, disk: Disk, root: Node, keyBytes: seq<Byte>, fromLevel: nat, proofDb: Disk,
               ghost t: Node, ghost known: iset<seq<Byte>>)
    returns (r: Outcome<Disk>)
    requires Minimal(t) && Loaded(keccak, root, t) && Known(keccak, t, known) && Addressed(keccak, disk, known)
    ensures r.Missing? ==> r.digest !in disk
    ensures r.Ok? ==> r.value == PutAll(keccak, Drop(fromLevel, Elements(keccak, t, KeyToHex(keyBytes))), proofDb)
  {
    hide *;
    var nodes := Collect(keccak, disk, root, keyBytes, t, known);
    if nodes.Missing? {
      return Missing(nodes.digest);
    }
    var key := KeyToHex(keyBytes);
    CollectStart(keccak, known, root, keyBytes, t);
    SelectedPath(keccak, t, key);
    var out := WriteElements(keccak, nodes.value, fromLevel, proofDb, Path(t, key));
    return Ok(out);
  }

  lemma {:induction false} PutAllHas(keccak: HashFunction, blobs: seq<seq<Byte>>, db: Disk, b: seq<Byte>)
    requires forall x, y :: x in blobs && y in blobs && keccak(x) == keccak(y) ==> x == y
    requires b in blobs || (keccak(b) in db && db[keccak(b)] == b && forall x :: x in blobs ==> keccak(x) != keccak(b))
    ensures keccak(b) in PutAll(keccak, blobs, db) && PutAll(keccak, blobs, db)[keccak(b)] == b
  {
    if blobs != [] {
      var db' := db[keccak(blobs[0]) := blobs[0]];
      assert blobs == [blobs[0]] + blobs[1..];
      PutAllHas(keccak, blobs[1..], db', b);
    }
  }

  /** Verifying what `Prove` wrote gives exactly what the trie holds, present or absent. */
  lemma ProofVerifies(keccak: HashFunction, t: Node, key: Key, proofDb: Disk, known: iset<seq<Byte>>)
    requires Minimal(t) && Terminated(key) && Known(keccak, t, known) && Addressed(keccak, map[], known)
    ensures Verify(RootHash(keccak, t), key, PutAll(keccak, Elements(keccak, t, key), proofDb)) ==
            Verified(Lookup(t, key))
  {
    var blobs := Elements(keccak, t, key);
    var db := PutAll(keccak, blobs, proofDb);
    ElementsKnown(keccak, t, key, known);
    forall b | b in blobs
      ensures keccak(b) in db && db[keccak(b)] == b
    {
      PutAllHas(keccak, blobs, proofDb, b);
    }
    VerifyAgrees(keccak, t, key, db, known);
  }
}
