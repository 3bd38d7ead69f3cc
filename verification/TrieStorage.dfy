/**
 Committing a trie: `hasher.hash` stores every node whose encoding has at least 32
 bytes under the hash of that encoding, and the root in any case.  The root hash
 does not depend on how much of the trie is loaded, and the stored nodes give the
 committed trie back.
 */
module TrieStorage {
  import opened Bytes
  import opened TrieNode
  import opened TrieResolve
  import opened TrieCodec
  import opened TrieCanonical
  import opened RlpFormat

  type Disk = map<Digest, seq<Byte>>

  lemma {:induction false} MinimalShaped(t: Node)
    requires Minimal(t)
    ensures Shaped(t)
  {
    match t
    case Short(_, v) =>
      if v.Full? {
        MinimalShaped(v);
      }
    case Full(c) =>
      forall i | 0 <= i < 16 && !c[i].Nil?
        ensures Shaped(c[i])
      {
        MinimalShaped(c[i]);
      }
  }

  /** The stored form of a minimal trie's top node. */
  ghost function Blob(keccak: HashFunction, t: Node): (b: seq<Byte>)
    requires Minimal(t)
  {
    MinimalShaped(t);
    Enc(keccak, t)
  }

  ghost function RootHash(keccak: HashFunction, t: Node): (h: Digest)
    requires Minimal(t)
  {
    keccak(Blob(keccak, t))
  }

  /* ---- What is loaded does not matter ---- */

  ghost predicate Slot(t: Node)
  {
    t.Nil? || NonEmptyValue(t) || Minimal(t)
  }

  /** `n` is `t` with some of its stored subtries replaced by their hashes. */
  ghost predicate Loaded(keccak: HashFunction, n: Node, t: Node)
    requires Slot(t)
    decreases t
  {
    if n.Hash? then Minimal(t) && |Blob(keccak, t)| >= 32 && n.digest == RootHash(keccak, t)
    else
      match t
      case Short(k, v) => n.Short? && n.key == k && Loaded(keccak, n.val, v)
      case Full(c) =>
        n.Full? && |n.children| == 17 && forall i :: 0 <= i < 17 ==> Loaded(keccak, n.children[i], c[i])
      case _ => n == t
  }

  lemma {:induction false} LoadedShaped(keccak: HashFunction, n: Node, t: Node)
    requires Slot(t) && Loaded(keccak, n, t)
    ensures n.Nil? <==> t.Nil?
    ensures n.Value? ==> n == t
    ensures Minimal(t) && !n.Hash? ==> Shaped(n) && n.Short? == t.Short?
    decreases t
  {
    if !n.Hash? {
      match t
      case Short(_, v) => LoadedShaped(keccak, n.val, v);
      case Full(c) =>
        forall i | 0 <= i < 17
          ensures n.children[i].Nil? <==> c[i].Nil?
          ensures n.children[i].Value? ==> n.children[i] == c[i]
          ensures Minimal(c[i]) && !n.children[i].Hash? ==> Shaped(n.children[i])
        {
          LoadedShaped(keccak, n.children[i], c[i]);
        }
        var i, j :| 0 <= i < j < |c| && !c[i].Nil? && !c[j].Nil?;
        assert !n.children[i].Nil? && !n.children[j].Nil?;
      case _ =>
    }
  }

  /** The stored form of a node, and so the root hash, does not depend on what is loaded. */
  lemma {:induction false} LoadedItem(keccak: HashFunction, n: Node, t: Node)
    requires Slot(t) && Loaded(keccak, n, t)
    ensures n.Nil? || n.Value? || n.Hash? || Shaped(n)
    ensures t.Nil? || t.Value? || Shaped(t)
    ensures RefItem(keccak, n) == RefItem(keccak, t)
    ensures Minimal(t) && !n.Hash? ==> Shaped(n) && Enc(keccak, n) == Blob(keccak, t)
    decreases t
  {
    LoadedShaped(keccak, n, t);
    if Minimal(t) {
      MinimalShaped(t);
      if !n.Hash? {
        if t.Short? {
          LoadedItem(keccak, n.val, t.val);
        } else {
          forall i | 0 <= i < 17
            ensures n.children[i].Nil? || n.children[i].Value? || n.children[i].Hash? || Shaped(n.children[i])
            ensures t.children[i].Nil? || t.children[i].Value? || Shaped(t.children[i])
            ensures RefItem(keccak, n.children[i]) == RefItem(keccak, t.children[i])
          {
            LoadedItem(keccak, n.children[i], t.children[i]);
          }
          assert RefItems(keccak, n.children) == RefItems(keccak, t.children);
        }
        assert NodeItem(keccak, n) == NodeItem(keccak, t);
        hide NodeItem, RefItems, Minimal, Shaped, Encode;
      }
    }
  }

  /** What reading a stored node gives stands for the trie that was stored. */
  lemma {:induction false} OneLevelLoaded(keccak: HashFunction, t: Node)
    requires Minimal(t) && Shaped(t)
    ensures Loaded(keccak, OneLevel(keccak, t), t)
    decreases t, 0
  {
    match t
    case Short(_, v) => RefNodeLoaded(keccak, v);
    case Full(c) =>
      forall i | 0 <= i < 17
        ensures Loaded(keccak, RefNode(keccak, c[i]), c[i])
      {
        RefNodeLoaded(keccak, c[i]);
      }
  }

  lemma {:induction false} RefNodeLoaded(keccak: HashFunction, v: Node)
    requires Slot(v) && (Minimal(v) ==> Shaped(v))
    ensures Loaded(keccak, RefNode(keccak, v), v)
    decreases v, 1
  {
    if Minimal(v) && |Enc(keccak, v)| < 32 {
      OneLevelLoaded(keccak, v);
    }
  }

  /* ---- Committing ---- */

  /** Stores a node under the hash of its encoding, unless that hash is already there. */
  function Insert(keccak: HashFunction, disk: Disk, blob: seq<Byte>): (disk': Disk)
    ensures forall h :: h in disk ==> h in disk' && disk'[h] == disk[h]
    ensures keccak(blob) in disk'
  {
    if keccak(blob) in disk then disk else disk[keccak(blob) := blob]
  }

  /** `hasher.hash` with a database: children first, then the node itself if it is large or forced. */
  function Store(keccak: HashFunction, n: Node, disk: Disk, force: bool): (disk': Disk)
    requires Shaped(n)
    decreases n, 1
  {
    var below := StoreBelow(keccak, n, disk);
    if |Enc(keccak, n)| < 32 && !force then below else Insert(keccak, below, Enc(keccak, n))
  }

  /** `hasher.hashChildren` with a database. */
  function StoreBelow(keccak: HashFunction, n: Node, disk: Disk): (disk': Disk)
    requires Shaped(n)
    decreases n, 0
  {
    match n
    case Short(_, v) => StoreRef(keccak, v, disk)
    case Full(c) => StoreChildren(keccak, c[..16], disk)
  }

  function StoreRef(keccak: HashFunction, v: Node, disk: Disk): (disk': Disk)
    requires v.Nil? || v.Value? || v.Hash? || Shaped(v)
    decreases v, 2
  {
    if v.Nil? || v.Value? || v.Hash? then disk else Store(keccak, v, disk, false)
  }

  function StoreChildren(keccak: HashFunction, c: seq<Node>, disk: Disk): (disk': Disk)
    requires forall i :: 0 <= i < |c| ==> c[i].Nil? || c[i].Hash? || Shaped(c[i])
    decreases c, 3
  {
    if c == [] then disk
    else StoreChildren(keccak, c[1..], StoreRef(keccak, c[0], disk))
  }

  /* ---- What is stored is there, and is the trie ---- */

  /** Every entry stands under its own hash, and no two byte strings in `known` share one. */
  ghost predicate Addressed(keccak: HashFunction, disk: Disk, known: iset<seq<Byte>>)
  {
    (forall x, y :: x in known && y in known && keccak(x) == keccak(y) ==> x == y) &&
    (forall h :: h in disk ==> disk[h] in known && keccak(disk[h]) == h)
  }

  /** The stored forms of all nodes of `t` are in `known`; each is a byte slice, so shorter than 2^64. */
  ghost predicate Known(keccak: HashFunction, t: Node, known: iset<seq<Byte>>)
    requires Slot(t)
  {
    Minimal(t) ==>
      Blob(keccak, t) in known && |Blob(keccak, t)| < LIMIT &&
      match t
      case Short(_, v) => Known(keccak, v, known)
      case Full(c) => forall i :: 0 <= i < 17 ==> Known(keccak, c[i], known)
  }

  ghost predicate Grows(disk: Disk, disk': Disk)
  {
    forall h :: h in disk ==> h in disk' && disk'[h] == disk[h]
  }

  ghost predicate Has(keccak: HashFunction, disk: Disk, t: Node)
    requires Minimal(t)
  {
    RootHash(keccak, t) in disk && disk[RootHash(keccak, t)] == Blob(keccak, t)
  }

  /** Everything below the top node of `t` that is not embedded is stored. */
  ghost predicate Present(keccak: HashFunction, disk: Disk, t: Node)
    requires Minimal(t)
    decreases t, 0
  {
    match t
    case Short(_, v) => PresentRef(keccak, disk, v)
    case Full(c) => forall i :: 0 <= i < 17 ==> PresentRef(keccak, disk, c[i])
  }

  ghost predicate PresentRef(keccak: HashFunction, disk: Disk, v: Node)
    requires Slot(v)
    decreases v, 1
  {
    Minimal(v) ==> (|Blob(keccak, v)| >= 32 ==> Has(keccak, disk, v)) && Present(keccak, disk, v)
  }

  /** Whatever is not loaded in `n` is stored. */
  ghost predicate Backed(keccak: HashFunction, disk: Disk, n: Node, t: Node)
    requires Slot(t) && Loaded(keccak, n, t)
    decreases t
  {
    if n.Hash? then PresentRef(keccak, disk, t)
    else
      match t
      case Short(_, v) => Backed(keccak, disk, n.val, v)
      case Full(c) => forall i :: 0 <= i < 17 ==> Backed(keccak, disk, n.children[i], c[i])
      case _ => true
  }

  lemma {:induction false} PresentGrows(keccak: HashFunction, disk: Disk, disk': Disk, v: Node)
    requires Slot(v) && PresentRef(keccak, disk, v) && Grows(disk, disk')
    ensures PresentRef(keccak, disk', v)
    decreases v
  {
    hide Blob;
    if Minimal(v) {
      match v
      case Short(_, w) => PresentGrows(keccak, disk, disk', w);
      case Full(c) =>
        forall i | 0 <= i < 17
          ensures PresentRef(keccak, disk', c[i])
        {
          PresentGrows(keccak, disk, disk', c[i]);
        }
    }
  }

  lemma {:induction false} BackedGrows(keccak: HashFunction, disk: Disk, disk': Disk, n: Node, t: Node)
    requires Slot(t) && Loaded(keccak, n, t) && Backed(keccak, disk, n, t) && Grows(disk, disk')
    ensures Backed(keccak, disk', n, t)
    decreases t
  {
    hide Blob, PresentRef;
    if n.Hash? {
      PresentGrows(keccak, disk, disk', t);
    } else {
      match t
      case Short(_, v) => BackedGrows(keccak, disk, disk', n.val, v);
      case Full(c) =>
        forall i | 0 <= i < 17
          ensures Backed(keccak, disk', n.children[i], c[i])
        {
          BackedGrows(keccak, disk, disk', n.children[i], c[i]);
        }
      case _ =>
    }
  }

  lemma InsertKeeps(keccak: HashFunction, disk: Disk, b: seq<Byte>, known: iset<seq<Byte>>)
    requires b in known && Addressed(keccak, disk, known)
    ensures var disk' := Insert(keccak, disk, b);
            Addressed(keccak, disk', known) && Grows(disk, disk') && keccak(b) in disk' && disk'[keccak(b)] == b
  {
  }

  /** Committing stores all of the trie that was not stored, and disturbs nothing. */
  lemma {:induction false} StoreKeeps(
      keccak: HashFunction, n: Node, t: Node, disk: Disk, force: bool, known: iset<seq<Byte>>)
    requires Minimal(t) && Loaded(keccak, n, t) && Shaped(n)
    requires Addressed(keccak, disk, known) && Known(keccak, t, known) && Backed(keccak, disk, n, t)
    ensures var disk' := Store(keccak, n, disk, force);
            Addressed(keccak, disk', known) && Grows(disk, disk') && Present(keccak, disk', t) &&
            (force || |Blob(keccak, t)| >= 32 ==> Has(keccak, disk', t))
    decreases t, 1
  {
    assert !n.Hash?;
    hide *;
    LoadedItem(keccak, n, t);
    var b, below := Blob(keccak, t), StoreBelow(keccak, n, disk);
    KnownTop(keccak, t, known);
    StoreTop(keccak, n, disk, force);
    StoreBelowKeeps(keccak, n, t, disk, known);
    InsertKeeps(keccak, below, b, known);
    PresentBelowGrows(keccak, below, Insert(keccak, below, b), t);
    GrowsTrans(disk, below, Insert(keccak, below, b));
  }

  lemma KnownTop(keccak: HashFunction, t: Node, known: iset<seq<Byte>>)
    requires Minimal(t) && Known(keccak, t, known)
    ensures Blob(keccak, t) in known && |Blob(keccak, t)| < LIMIT
    ensures forall disk :: Has(keccak, disk, t) <==>
              keccak(Blob(keccak, t)) in disk && disk[keccak(Blob(keccak, t))] == Blob(keccak, t)
  {
    hide Blob;
  }

  lemma StoreTop(keccak: HashFunction, n: Node, disk: Disk, force: bool)
    requires Shaped(n)
    ensures var below, b := StoreBelow(keccak, n, disk), Enc(keccak, n);
            Store(keccak, n, disk, force) == if |b| < 32 && !force then below else Insert(keccak, below, b)
  {
    hide StoreBelow, Enc, Insert;
  }

  lemma GrowsTrans(a: Disk, b: Disk, c: Disk)
    requires Grows(a, b) && Grows(b, c)
    ensures Grows(a, c)
  {
  }

  lemma PresentBelowGrows(keccak: HashFunction, disk: Disk, disk': Disk, t: Node)
    requires Minimal(t) && Present(keccak, disk, t) && Grows(disk, disk')
    ensures Present(keccak, disk', t)
  {
    hide Blob;
    match t {
      case Short(_, v) => PresentGrows(keccak, disk, disk', v);
      case Full(c) =>
        forall i | 0 <= i < 17
          ensures PresentRef(keccak, disk', c[i])
        {
          PresentGrows(keccak, disk, disk', c[i]);
        }
    }
  }

  lemma {:induction false} StoreBelowKeeps(
      keccak: HashFunction, n: Node, t: Node, disk: Disk, known: iset<seq<Byte>>)
    requires Minimal(t) && Loaded(keccak, n, t) && Shaped(n)
    requires Addressed(keccak, disk, known) && Known(keccak, t, known) && Backed(keccak, disk, n, t)
    ensures var disk' := StoreBelow(keccak, n, disk);
            Addressed(keccak, disk', known) && Grows(disk, disk') && Present(keccak, disk', t)
    decreases t, 0
  {
    hide Blob, Addressed, Enc, Grows, StoreRef, StoreChildren;
    match t {
      case Short(_, v) => StoreRefKeeps(keccak, n.val, v, disk, known);
      case Full(c) =>
        StoreChildrenKeeps(keccak, n.children, c, 16, disk, known);
        assert PresentRef(keccak, StoreBelow(keccak, n, disk), c[16]);
    }
  }

  lemma {:induction false} StoreRefKeeps(
      keccak: HashFunction, n: Node, t: Node, disk: Disk, known: iset<seq<Byte>>)
    requires Slot(t) && Loaded(keccak, n, t) && (n.Nil? || n.Value? || n.Hash? || Shaped(n))
    requires Addressed(keccak, disk, known) && Known(keccak, t, known) && Backed(keccak, disk, n, t)
    ensures var disk' := StoreRef(keccak, n, disk);
            Addressed(keccak, disk', known) && Grows(disk, disk') && PresentRef(keccak, disk', t)
    decreases t, 2
  {
    hide Blob, Addressed, Store, Known;
    if Shaped(n) {
      StoreKeeps(keccak, n, t, disk, false, known);
    }
  }

  lemma {:induction false} StoreChildrenKeeps(
      keccak: HashFunction, n: seq<Node>, c: seq<Node>, k: nat, disk: Disk, known: iset<seq<Byte>>)
    requires |n| == |c| && k <= |c|
    requires forall i :: 0 <= i < |c| ==> Slot(c[i]) && Loaded(keccak, n[i], c[i])
    requires forall i :: 0 <= i < k ==> n[i].Nil? || n[i].Hash? || Shaped(n[i])
    requires forall i :: 0 <= i < k ==> Known(keccak, c[i], known) && Backed(keccak, disk, n[i], c[i])
    requires Addressed(keccak, disk, known)
    ensures var disk' := StoreChildren(keccak, n[..k], disk);
            Addressed(keccak, disk', known) && Grows(disk, disk') &&
            forall i :: 0 <= i < k ==> PresentRef(keccak, disk', c[i])
    decreases c, 3
  {
    if k > 0 {
      var disk1 := StoreRef(keccak, n[0], disk);
      StoreRefKeeps(keccak, n[0], c[0], disk, known);
      forall i | 1 <= i < k
        ensures Backed(keccak, disk1, n[i], c[i])
      {
        BackedGrows(keccak, disk, disk1, n[i], c[i]);
      }
      StoreChildrenKeeps(keccak, n[1..], c[1..], k - 1, disk1, known);
      assert n[..k][1..] == n[1..][..k - 1];
      PresentGrows(keccak, disk1, StoreChildren(keccak, n[..k], disk), c[0]);
    }
  }

  /* ---- Opening what was committed ---- */

  /** The stored nodes, decoded on demand. */
  function Opened(disk: Disk): (store: NodeStore)
  {
    map h | h in disk && DecodeNode(disk[h]).Some? :: DecodeNode(disk[h]).value
  }

  lemma HasDecodes(keccak: HashFunction, disk: Disk, t: Node)
    requires Minimal(t) && Has(keccak, disk, t) && |Blob(keccak, t)| < LIMIT
    ensures Shaped(t)
    ensures RootHash(keccak, t) in disk
    ensures DecodeNode(disk[RootHash(keccak, t)]) == Some(OneLevel(keccak, t))
  {
    MinimalShaped(t);
    DecodeEncoded(keccak, t, []);
    assert Enc(keccak, t) + [] == Enc(keccak, t);
    hide Enc, OneLevel, DecodeNode, Minimal, Shaped;
  }

  lemma OpenedHas(keccak: HashFunction, disk: Disk, t: Node)
    requires Minimal(t) && Has(keccak, disk, t) && |Blob(keccak, t)| < LIMIT
    ensures Shaped(t)
    ensures RootHash(keccak, t) in Opened(disk) && Opened(disk)[RootHash(keccak, t)] == OneLevel(keccak, t)
  {
    hide Has, Blob, OneLevel, DecodeNode, Minimal, Shaped;
    HasDecodes(keccak, disk, t);
  }

  /** A partly loaded trie whose unloaded part is stored stands for the whole trie. */
  lemma {:induction false} LoadedRepresents(
      keccak: HashFunction, disk: Disk, n: Node, t: Node, known: iset<seq<Byte>>)
    requires Slot(t) && Loaded(keccak, n, t) && PresentRef(keccak, disk, t) && Known(keccak, t, known)
    ensures Represents(Opened(disk), n, t)
    decreases t, if n.Hash? then 1 else 0
  {
    if n.Hash? {
      OpenedHas(keccak, disk, t);
      OneLevelLoaded(keccak, t);
      LoadedRepresents(keccak, disk, OneLevel(keccak, t), t, known);
    } else {
      hide Blob, Opened;
      match t {
        case Short(_, v) => LoadedRepresents(keccak, disk, n.val, v, known);
        case Full(c) =>
          forall i | 0 <= i < 17
            ensures Represents(Opened(disk), n.children[i], c[i])
          {
            LoadedRepresents(keccak, disk, n.children[i], c[i], known);
          }
        case _ =>
      }
    }
  }

  /** Committing a trie and opening it again at its root hash gives the same trie. */
  lemma CommitReopens(keccak: HashFunction, n: Node, t: Node, disk: Disk, known: iset<seq<Byte>>)
    requires Minimal(t) && Loaded(keccak, n, t) && Shaped(n)
    requires Addressed(keccak, disk, known) && Known(keccak, t, known) && Backed(keccak, disk, n, t)
    ensures var disk' := Store(keccak, n, disk, true);
            Grows(disk, disk') && Represents(Opened(disk'), Hash(RootHash(keccak, t)), t)
  {
    StoreKeeps(keccak, n, t, disk, true, known);
    var disk' := Store(keccak, n, disk, true);
    OpenedHas(keccak, disk', t);
    OneLevelLoaded(keccak, t);
    assert PresentRef(keccak, disk', t);
    LoadedRepresents(keccak, disk', OneLevel(keccak, t), t, known);
  }

  /** Two tries holding the same pairs have the same root encoding, whatever each has loaded. */
  lemma RootHashDetermined(keccak: HashFunction, n: Node, t: Node, n': Node, t': Node)
    requires Minimal(t) && Minimal(t') && SameMap(t, t')
    requires Loaded(keccak, n, t) && Loaded(keccak, n', t') && Shaped(n) && Shaped(n')
    ensures Enc(keccak, n) == Enc(keccak, n')
  {
    Canonical(t, t');
    LoadedItem(keccak, n, t);
    LoadedItem(keccak, n', t');
  }
}
