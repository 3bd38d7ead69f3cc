/**
 A store that has a trie's root, and with every node of the trie also the nodes that
 it refers to, has the whole trie.
 */
module TriePresence {
  import opened Bytes
  import opened TrieNode
  import opened TrieResolve
  import opened TrieCodec
  import opened TrieStorage
  import opened RlpFormat
  import opened TrieRefs

  type Named = map<Id, seq<Byte>>

  /** A store by names as a store by hashes. */
  function ByHash(m: Named): (disk: Disk)
    ensures forall h :: h in disk <==> Id(h) in m
    ensures forall h :: h in disk ==> disk[h] == m[Id(h)]
  {
    map id | id in m && id.Id? :: id.digest := m[id]
  }

  /** The hashes of the nodes below the top of `t` that are stored on their own are in `nodes`. */
  ghost predicate NodesIn(keccak: HashFunction, t: Node, nodes: iset<Digest>)
    requires Slot(t)
  {
    Minimal(t) ==>
      (|Blob(keccak, t)| >= 32 ==> RootHash(keccak, t) in nodes) &&
      match t
      case Short(_, v) => NodesIn(keccak, v, nodes)
      case Full(c) => forall i :: 0 <= i < 17 ==> NodesIn(keccak, c[i], nodes)
  }

  ghost predicate AllIn(ids: seq<Id>, disk: Disk)
  {
    forall c :: c in ids ==> c.Id? && c.digest in disk
  }

  /** Whatever a stored node in `nodes` refers to is stored. */
  ghost predicate ClosedOn(disk: Disk, nodes: iset<Digest>)
  {
    forall h :: h in nodes && h in disk && DecodeNode(disk[h]).Some? ==> AllIn(Gather(DecodeNode(disk[h]).value), disk)
  }

  lemma HasKnown(keccak: HashFunction, disk: Disk, t: Node, known: iset<seq<Byte>>)
    requires Minimal(t) && Known(keccak, t, known) && Addressed(keccak, disk, known) && RootHash(keccak, t) in disk
    ensures Has(keccak, disk, t) && |Blob(keccak, t)| < LIMIT
  {
    hide Blob;
  }

  lemma {:induction false} PresentBelow(
      keccak: HashFunction, disk: Disk, t: Node, known: iset<seq<Byte>>, nodes: iset<Digest>)
    requires Minimal(t) && Shaped(t) && Known(keccak, t, known) && Addressed(keccak, disk, known)
    requires NodesIn(keccak, t, nodes) && ClosedOn(disk, nodes) && AllIn(Gather(OneLevel(keccak, t)), disk)
    ensures Present(keccak, disk, t)
    decreases t, 0
  {
    match t
    case Short(_, v) => PresentSlot(keccak, disk, v, known, nodes);
    case Full(c) =>
      forall i | 0 <= i < 17
        ensures PresentRef(keccak, disk, c[i])
      {
        if i < 16 {
          GatherChild(RefNodes(keccak, c), i);
          PresentSlot(keccak, disk, c[i], known, nodes);
        }
      }
  }

  lemma {:induction false} PresentSlot(
      keccak: HashFunction, disk: Disk, v: Node, known: iset<seq<Byte>>, nodes: iset<Digest>)
    requires Slot(v) && (Minimal(v) ==> Shaped(v)) && Known(keccak, v, known) && Addressed(keccak, disk, known)
    requires NodesIn(keccak, v, nodes) && ClosedOn(disk, nodes) && AllIn(Gather(RefNode(keccak, v)), disk)
    ensures PresentRef(keccak, disk, v)
    decreases v, 1
  {
    if Minimal(v) {
      if |Blob(keccak, v)| >= 32 {
        assert Gather(RefNode(keccak, v)) == [Id(RootHash(keccak, v))];
        assert Id(RootHash(keccak, v)) in Gather(RefNode(keccak, v));
        HasKnown(keccak, disk, v, known);
        HasDecodes(keccak, disk, v);
      }
      PresentBelow(keccak, disk, v, known, nodes);
    }
  }

  lemma GatherChild(c: seq<Node>, i: nat)
    requires |c| == 17 && i < 16
    ensures forall id :: id in Gather(c[i]) ==> id in Gather(Full(c))
  {
    GatherAllChild(c[..16], i);
  }

  lemma {:induction false} GatherAllChild(c: seq<Node>, i: nat)
    requires i < |c|
    ensures forall id :: id in Gather(c[i]) ==> id in GatherAll(c)
  {
    if i > 0 {
      GatherAllChild(c[1..], i - 1);
    }
  }

  /** The trie can be opened at its root hash. */
  lemma ClosedReopens(keccak: HashFunction, disk: Disk, t: Node, known: iset<seq<Byte>>, nodes: iset<Digest>)
    requires Minimal(t) && Known(keccak, t, known) && Addressed(keccak, disk, known)
    requires RootHash(keccak, t) in nodes && NodesIn(keccak, t, nodes) && ClosedOn(disk, nodes)
    requires RootHash(keccak, t) in disk
    ensures Represents(Opened(disk), Hash(RootHash(keccak, t)), t)
  {
    MinimalShaped(t);
    HasKnown(keccak, disk, t, known);
    HasDecodes(keccak, disk, t);
    PresentBelow(keccak, disk, t, known, nodes);
    OpenedHas(keccak, disk, t);
    OneLevelLoaded(keccak, t);
    assert PresentRef(keccak, disk, t);
    LoadedRepresents(keccak, disk, OneLevel(keccak, t), t, known);
    hide Blob, Known, Addressed, NodesIn, ClosedOn, Minimal, Shaped, OneLevel, Present;
  }

  /* ---- Exactly when a trie can be opened ---- */

  /** What is stored under `h`, if it is a node, has all that it refers to stored. */
  ghost predicate Complete(disk: Disk, h: Digest)
  {
    h in disk && DecodeNode(disk[h]).Some? ==> AllIn(Gather(DecodeNode(disk[h]).value), disk)
  }

  ghost function CompleteNodes(disk: Disk): (nodes: iset<Digest>)
  {
    iset h: Digest | Complete(disk, h)
  }

  lemma {:induction false} RepresentsBelow(keccak: HashFunction, disk: Disk, t: Node, known: iset<seq<Byte>>)
    requires Minimal(t) && Shaped(t) && Known(keccak, t, known) && Addressed(keccak, disk, known)
    requires Represents(Opened(disk), OneLevel(keccak, t), t)
    ensures Present(keccak, disk, t)
    decreases t, 0
  {
    hide Opened, Addressed, Blob;
    match t
    case Short(_, v) => RepresentsSlot(keccak, disk, v, known);
    case Full(c) =>
      forall i | 0 <= i < 17
        ensures PresentRef(keccak, disk, c[i])
      {
        RepresentsSlot(keccak, disk, c[i], known);
      }
  }

  lemma {:induction false} RepresentsSlot(keccak: HashFunction, disk: Disk, v: Node, known: iset<seq<Byte>>)
    requires Slot(v) && (Minimal(v) ==> Shaped(v)) && Known(keccak, v, known) && Addressed(keccak, disk, known)
    requires Represents(Opened(disk), RefNode(keccak, v), v)
    ensures PresentRef(keccak, disk, v)
    decreases v, 1
  {
    if Minimal(v) {
      if |Blob(keccak, v)| >= 32 {
        HasKnown(keccak, disk, v, known);
        OpenedHas(keccak, disk, v);
      }
      hide Opened, Addressed, OneLevel;
      RepresentsBelow(keccak, disk, v, known);
    }
  }

  /** In a trie that is there, every node is complete. */
  lemma {:induction false} PresentGather(keccak: HashFunction, disk: Disk, t: Node)
    requires Minimal(t) && Shaped(t) && Present(keccak, disk, t)
    ensures AllIn(Gather(OneLevel(keccak, t)), disk)
    decreases t, 0
  {
    match t
    case Short(_, v) => PresentSlotGather(keccak, disk, v);
    case Full(c) =>
      var m := RefNodes(keccak, c);
      forall i | 0 <= i < 16
        ensures AllIn(Gather(m[i]), disk)
      {
        PresentSlotGather(keccak, disk, c[i]);
      }
      AllInGathered(m[..16], disk);
  }

  lemma {:induction false} PresentSlotGather(keccak: HashFunction, disk: Disk, v: Node)
    requires Slot(v) && (Minimal(v) ==> Shaped(v)) && PresentRef(keccak, disk, v)
    ensures AllIn(Gather(RefNode(keccak, v)), disk)
    decreases v, 1
  {
    if Minimal(v) && |Blob(keccak, v)| < 32 {
      PresentGather(keccak, disk, v);
    }
  }

  lemma {:induction false} AllInGathered(c: seq<Node>, disk: Disk)
    requires forall i :: 0 <= i < |c| ==> AllIn(Gather(c[i]), disk)
    ensures AllIn(GatherAll(c), disk)
  {
    if c != [] {
      AllInGathered(c[1..], disk);
    }
  }

  lemma {:induction false} PresentComplete(keccak: HashFunction, disk: Disk, t: Node, known: iset<seq<Byte>>)
    requires Slot(t) && Known(keccak, t, known) && Addressed(keccak, disk, known) && PresentRef(keccak, disk, t)
    ensures Minimal(t) ==> RootHash(keccak, t) in CompleteNodes(disk)
    ensures NodesIn(keccak, t, CompleteNodes(disk))
    decreases t
  {
    if Minimal(t) {
      TopComplete(keccak, disk, t, known);
      hide CompleteNodes, Addressed, Blob;
      match t
      case Short(_, v) => PresentComplete(keccak, disk, v, known);
      case Full(c) =>
        forall i | 0 <= i < 17
          ensures NodesIn(keccak, c[i], CompleteNodes(disk))
        {
          PresentComplete(keccak, disk, c[i], known);
        }
    }
  }

  lemma TopComplete(keccak: HashFunction, disk: Disk, t: Node, known: iset<seq<Byte>>)
    requires Minimal(t) && Known(keccak, t, known) && Addressed(keccak, disk, known) && Present(keccak, disk, t)
    ensures RootHash(keccak, t) in CompleteNodes(disk)
  {
    MinimalShaped(t);
    PresentGather(keccak, disk, t);
    hide Present, Minimal, Shaped, OneLevel, Gather, DecodeNode;
    if RootHash(keccak, t) in disk {
      HasKnown(keccak, disk, t, known);
      HasDecodes(keccak, disk, t);
    }
  }

  /** A trie whose root is stored can be opened exactly when each of its nodes is complete. */
  lemma OpensExactly(keccak: HashFunction, disk: Disk, t: Node, known: iset<seq<Byte>>)
    requires Minimal(t) && Known(keccak, t, known) && Addressed(keccak, disk, known) && RootHash(keccak, t) in disk
    ensures Represents(Opened(disk), Hash(RootHash(keccak, t)), t) <==>
            RootHash(keccak, t) in CompleteNodes(disk) && NodesIn(keccak, t, CompleteNodes(disk))
  {
    var root, nodes := RootHash(keccak, t), CompleteNodes(disk);
    assert ClosedOn(disk, nodes);
    HasKnown(keccak, disk, t, known);
    OpenedHas(keccak, disk, t);
    hide CompleteNodes, Known, Addressed, NodesIn, ClosedOn, Minimal, Shaped, OneLevel, Present, Opened, Blob;
    if root in nodes && NodesIn(keccak, t, nodes) {
      ClosedReopens(keccak, disk, t, known, nodes);
    }
    if Represents(Opened(disk), Hash(root), t) {
      RepresentsBelow(keccak, disk, t, known);
      PresentComplete(keccak, disk, t, known);
    }
  }
}
