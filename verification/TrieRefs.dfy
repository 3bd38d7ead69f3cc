/**
 Reference counting in the write cache: which references the cached nodes hold,
 and what it means for the counters to cover them.
 */
module TrieRefs {
  import opened Bytes
  import opened TrieNode

  /** The name of a cached or stored node.  The all-zero hash names the meta-root and is no node's hash. */
  datatype Id = Meta | Id(digest: Digest)

  /**
   A cached node without its flush-list links.  `node` is absent for a raw blob, and
   `children` counts the references that were added from outside.
   */
  datatype Entry = Entry(
    node: Option<Node>,
    blob: seq<Byte>,
    size: nat,
    parents: nat,
    children: Option<multiset<Id>>)

  type Entries = map<Id, Entry>

  /** `gatherChildren`: the hashes inside a collapsed node, left to right. */
  function Gather(n: Node): (ids: seq<Id>)
    decreases n, 0
  {
    match n
    case Short(_, v) => Gather(v)
    case Full(c) => GatherAll(if |c| > 16 then c[..16] else c)
    case Hash(h) => [Id(h)]
    case _ => []
  }

  function GatherAll(c: seq<Node>): (ids: seq<Id>)
    decreases c, 1
  {
    if c == [] then [] else Gather(c[0]) + GatherAll(c[1..])
  }

  function Inner(e: Entry): (ids: seq<Id>)
  {
    if e.node.None? then [] else Gather(e.node.value)
  }

  function Outer(e: Entry): (ids: multiset<Id>)
  {
    if e.children.None? then multiset{} else e.children.value
  }

  /* ---- The references, without the counters ---- */

  datatype Held = Held(inner: multiset<Id>, outer: multiset<Id>) {
    ghost function All(): (ids: multiset<Id>)
    {
      inner + outer
    }
  }

  type Graph = map<Id, Held>

  ghost function HeldBy(e: Entry): (held: Held)
  {
    Held(multiset(Inner(e)), Outer(e))
  }

  ghost function GraphOf(d: Entries): (g: Graph)
  {
    map x | x in d :: HeldBy(d[x])
  }

  lemma GraphAt(d: Entries, x: Id)
    requires x in d
    ensures x in GraphOf(d) && GraphOf(d)[x] == HeldBy(d[x]) && GraphOf(d)[x].outer == Outer(d[x])
  {
  }

  ghost predicate Within(order: seq<Id>, g: Graph)
  {
    forall x :: x in order ==> x in g
  }

  /** All references held by the nodes in `order`. */
  ghost function Edges(g: Graph, order: seq<Id>): (ids: multiset<Id>)
    requires Within(order, g)
  {
    if order == [] then multiset{} else g[order[0]].All() + Edges(g, order[1..])
  }

  lemma {:induction false} EdgesConcat(g: Graph, a: seq<Id>, b: seq<Id>)
    requires Within(a, g) && Within(b, g)
    ensures Edges(g, a + b) == Edges(g, a) + Edges(g, b)
  {
    if a == [] {
      assert a + b == b;
    } else {
      assert (a + b)[1..] == a[1..] + b;
      EdgesConcat(g, a[1..], b);
    }
  }

  lemma EdgesRemove(g: Graph, a: seq<Id>, x: Id, b: seq<Id>)
    requires Within(a, g) && Within(b, g) && x in g
    ensures Edges(g, a + [x] + b) == Edges(g, a + b) + g[x].All()
  {
    assert Edges(g, [x]) == g[x].All() by {
      assert [x][1..] == [];
    }
    EdgesConcat(g, a + [x], b);
    EdgesConcat(g, a, [x]);
    EdgesConcat(g, a, b);
    hide Edges;
  }

  lemma {:induction false} EdgesSame(g: Graph, g': Graph, order: seq<Id>)
    requires Within(order, g) && Within(order, g')
    requires forall x :: x in order ==> g'[x] == g[x]
    ensures Edges(g', order) == Edges(g, order)
  {
    if order != [] {
      EdgesSame(g, g', order[1..]);
    }
  }

  lemma {:induction false} EdgesHolder(g: Graph, order: seq<Id>, c: Id) returns (h: Id)
    requires Within(order, g) && c in Edges(g, order)
    ensures h in order && c in g[h].All()
  {
    h := order[0];
    if c !in g[h].All() {
      h := EdgesHolder(g, order[1..], c);
    }
  }

  lemma {:induction false} EdgeOf(g: Graph, order: seq<Id>, h: Id, c: Id)
    requires Within(order, g) && h in order && c in g[h].All()
    ensures c in Edges(g, order)
  {
    if order[0] != h {
      EdgeOf(g, order[1..], h, c);
    }
  }

  /** All references that count: of the nodes in `order`, of the meta-root, and the outstanding ones. */
  ghost function Refs(g: Graph, order: seq<Id>, owed: multiset<Id>): (ids: multiset<Id>)
    requires Within(order, g) && Meta in g
  {
    Edges(g, order) + g[Meta].outer + owed
  }

  lemma RefsPay(g: Graph, order: seq<Id>, owed: multiset<Id>, c: Id)
    requires Within(order, g) && Meta in g && c in owed
    ensures c in Refs(g, order, owed)
    ensures Refs(g, order, owed - multiset{c}) == Refs(g, order, owed) - multiset{c}
  {
    hide Edges;
  }

  /** A node taken out of the list leaves its own references outstanding. */
  lemma RefsDetach(g: Graph, a: seq<Id>, x: Id, b: seq<Id>, owed: multiset<Id>)
    requires Within(a, g) && Within(b, g) && x in g && Meta in g && Within(a + [x] + b, g) && Within(a + b, g)
    ensures Refs(g, a + b, owed + g[x].All()) == Refs(g, a + [x] + b, owed)
  {
    EdgesRemove(g, a, x, b);
    hide Edges;
  }

  lemma UnreferencedBy(g: Graph, order: seq<Id>, owed: multiset<Id>, x: Id)
    requires Within(order, g) && Meta in g && x !in Refs(g, order, owed)
    ensures x !in g[Meta].outer && forall h :: h in order ==> x !in g[h].All()
  {
    forall h | h in order
      ensures x !in g[h].All()
    {
      if x in g[h].All() {
        EdgeOf(g, order, h, x);
      }
    }
  }

  /* ---- Where references lead ---- */

  /** `stamp` gives the time at which each node was cached; the list is in that order. */
  ghost predicate Stamped(order: seq<Id>, stamp: map<Id, nat>, clock: nat)
  {
    (forall x :: x in order ==> x in stamp && stamp[x] < clock) &&
    (forall i, j :: 0 <= i < j < |order| ==> stamp[order[i]] < stamp[order[j]])
  }

  /** Every reference of a node in `live` leads to a stored node or to an older one in `live`. */
  ghost predicate Closed(g: Graph, live: set<Id>, disk: set<Id>, stamp: map<Id, nat>)
    requires live <= g.Keys && live <= stamp.Keys && Meta in g
  {
    (forall h, c :: h in live && c in g[h].All() ==> c in disk || (c in live && stamp[c] < stamp[h])) &&
    (forall c :: c in g[Meta].outer ==> c in disk || c in live)
  }

  /** A node that is stored, or that nothing refers to, may go. */
  lemma ClosedWithout(g: Graph, live: set<Id>, x: Id, disk: set<Id>, stamp: map<Id, nat>)
    requires live <= g.Keys && live <= stamp.Keys && Meta in g
    requires Closed(g, live, disk, stamp)
    requires x in disk || (x !in g[Meta].outer && forall h :: h in live ==> x !in g[h].All())
    ensures Closed(g, live - {x}, disk, stamp)
  {
  }

  /** References are acyclic: a hash is taken of content that holds the hashes below it. */
  ghost predicate Ranked(g: Graph, rank: Id -> nat)
  {
    forall h, c :: h in g && c in g[h].All() ==> c != Meta && (h != Meta ==> rank(c) < rank(h))
  }

  /** Only the meta-root may refer to a node more than once from outside. */
  ghost predicate Singles(g: Graph)
  {
    forall h, c :: h in g && h != Meta && c in g[h].outer ==> g[h].outer[c] == 1
  }

  /* ---- The counters ---- */

  /**
   Each counter exceeds the references `refs` to its node by `slack`.  Only a node that
   is also stored may have fewer, which a negative slack stands for.
   */
  ghost predicate Counted(d: Entries, refs: multiset<Id>, disk: set<Id>, slack: map<Id, int>)
  {
    forall c :: c in d && c != Meta ==>
      c in slack &&
      (slack[c] >= 0 ==> d[c].parents == refs[c] + slack[c]) &&
      (c !in disk ==> slack[c] >= 0)
  }

  lemma UnreferencedOrStored(d: Entries, refs: multiset<Id>, disk: set<Id>, slack: map<Id, int>, x: Id)
    requires Counted(d, refs, disk, slack) && x in d && x != Meta && d[x].parents == 0
    ensures x in disk || x !in refs
  {
  }

  function CountedDown(d: Entries, c: Id): (d': Entries)
    requires c in d
  {
    if d[c].parents > 0 then d[c := d[c].(parents := d[c].parents - 1)] else d
  }

  /** Dropping one reference to `c`. */
  lemma CountDown(d: Entries, refs: multiset<Id>, disk: set<Id>, slack: map<Id, int>, c: Id)
    requires Counted(d, refs, disk, slack) && c in d && c != Meta && c in refs
    ensures Counted(CountedDown(d, c), refs - multiset{c}, disk, slack)
    ensures GraphOf(CountedDown(d, c)) == GraphOf(d)
  {
    var d', refs' := CountedDown(d, c), refs - multiset{c};
    CountedDownGraph(d, c);
    forall x | x in d' && x != Meta
      ensures x in slack && (slack[x] >= 0 ==> d'[x].parents == refs'[x] + slack[x])
      ensures x !in disk ==> slack[x] >= 0
    {
      assert x in d && (x != c ==> d'[x] == d[x] && refs'[x] == refs[x]);
    }
    hide GraphOf, CountedDown;
  }

  lemma CountedDownGraph(d: Entries, c: Id)
    requires c in d
    ensures GraphOf(CountedDown(d, c)) == GraphOf(d)
  {
  }
}
