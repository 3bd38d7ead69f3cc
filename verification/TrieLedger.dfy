/**
 The state of the write cache as far as garbage collection is concerned, the
 invariant it keeps, and how each elementary change keeps it.
 */
module TrieLedger {
  import opened Bytes
  import opened TrieRefs
  import opened FlushList

  /**
   What is known about the cached nodes besides their content: the flush list, the
   nodes being torn down, the references these have still to give up, the slack of
   each counter and the times of caching.
   */
  datatype Ledger = Ledger(
    order: seq<Id>,
    pending: seq<Id>,
    owed: multiset<Id>,
    slack: map<Id, int>,
    stamp: map<Id, nat>,
    clock: nat)

  /** The cached nodes are the meta-root, the listed ones and those being torn down, all different. */
  ghost predicate Partition(g: Graph, order: seq<Id>, pending: seq<Id>)
    ensures Partition(g, order, pending) ==> Meta in g && Within(order, g) && Elements(order) <= g.Keys
  {
    Distinct(order) && Distinct(pending) && Meta !in order && Meta !in pending &&
    Elements(order) !! Elements(pending) && g.Keys == {Meta} + Elements(order) + Elements(pending) &&
    Within(order, g)
  }

  ghost predicate Structured(g: Graph, l: Ledger, disk: set<Id>, rank: Id -> nat)
    ensures Structured(g, l, disk, rank) ==> Meta in g && Within(l.order, g)
  {
    Partition(g, l.order, l.pending) && Elements(l.order) <= l.stamp.Keys &&
    Stamped(l.order, l.stamp, l.clock) && Closed(g, Elements(l.order), disk, l.stamp) &&
    Ranked(g, rank) && Singles(g)
  }

  ghost predicate Sound(d: Entries, l: Ledger, disk: set<Id>, rank: Id -> nat)
  {
    Structured(GraphOf(d), l, disk, rank) &&
    Counted(d, Refs(GraphOf(d), l.order, l.owed), disk, l.slack)
  }

  /** Giving up a reference to a node that is not cached. */
  lemma SoundGone(d: Entries, l: Ledger, disk: set<Id>, rank: Id -> nat, c: Id)
    requires Sound(d, l, disk, rank) && c in l.owed && c !in d
    ensures Sound(d, l.(owed := l.owed - multiset{c}), disk, rank)
  {
    hide Refs, GraphOf, Partition, Closed, Ranked, Singles, Stamped;
    RefsPay(GraphOf(d), l.order, l.owed, c);
  }

  /** Giving up a reference to a cached node. */
  lemma SoundCountDown(d: Entries, l: Ledger, disk: set<Id>, rank: Id -> nat, c: Id)
    requires Sound(d, l, disk, rank) && c in l.owed && c in d && c != Meta
    ensures Sound(CountedDown(d, c), l.(owed := l.owed - multiset{c}), disk, rank)
  {
    hide Refs, GraphOf, Partition, Closed, Ranked, Singles, Stamped, Counted, CountedDown;
    RefsPay(GraphOf(d), l.order, l.owed, c);
    CountDown(d, Refs(GraphOf(d), l.order, l.owed), disk, l.slack, c);
  }

  lemma StampedWithout(order: seq<Id>, stamp: map<Id, nat>, clock: nat, k: nat)
    requires Stamped(order, stamp, clock) && k < |order|
    ensures Stamped(Without(order, k), stamp, clock)
  {
  }

  lemma PartitionDetach(g: Graph, order: seq<Id>, pending: seq<Id>, k: nat)
    requires Partition(g, order, pending) && k < |order|
    ensures Partition(g, Without(order, k), pending + [order[k]])
  {
    DistinctWithout(order, k);
    assert Elements(pending + [order[k]]) == Elements(pending) + {order[k]};
    assert forall x :: x in Without(order, k) ==> x in Elements(Without(order, k));
  }

  /** A node whose counter is zero leaves the list; what it refers to becomes outstanding. */
  lemma SoundDetach(d: Entries, l: Ledger, disk: set<Id>, rank: Id -> nat, k: nat)
    requires Sound(d, l, disk, rank) && k < |l.order| && l.order[k] in d && d[l.order[k]].parents == 0
    ensures var x := l.order[k];
            Sound(d, l.(order := Without(l.order, k), pending := l.pending + [x], owed := l.owed + HeldBy(d[x]).All()),
                  disk, rank)
  {
    hide Refs, GraphOf, Closed, Ranked, Singles, Stamped, Counted, HeldBy, Without;
    var g, x, order' := GraphOf(d), l.order[k], Without(l.order, k);
    GraphAt(d, x);
    DistinctWithout(l.order, k);
    StampedWithout(l.order, l.stamp, l.clock, k);
    PartitionDetach(g, l.order, l.pending, k);
    RefsWithout(g, l.order, k, l.owed);
    UnreferencedOrStored(d, Refs(g, l.order, l.owed), disk, l.slack, x);
    if x !in disk {
      UnreferencedBy(g, l.order, l.owed, x);
    }
    ClosedWithout(g, Elements(l.order), x, disk, l.stamp);
  }

  lemma RefsWithout(g: Graph, order: seq<Id>, k: nat, owed: multiset<Id>)
    requires Within(order, g) && Meta in g && k < |order|
    ensures Within(Without(order, k), g)
    ensures Refs(g, Without(order, k), owed + g[order[k]].All()) == Refs(g, order, owed)
  {
    assert order == order[..k] + [order[k]] + order[k + 1..];
    RefsDetach(g, order[..k], order[k], order[k + 1..], owed);
  }

  /* ---- Changing what one node holds ---- */

  /** `d` with what `x` is referred to from outside replaced. */
  function Relinked(d: Entries, x: Id, children: multiset<Id>): (d': Entries)
    requires x in d
    ensures d'.Keys == d.Keys && forall y :: y in d ==> d'[y].parents == d[y].parents
  {
    d[x := d[x].(children := Some(children))]
  }

  lemma GraphRelinked(d: Entries, x: Id, children: multiset<Id>)
    requires x in d
    ensures x in GraphOf(d) && GraphOf(d)[x].outer == Outer(d[x])
    ensures GraphOf(Relinked(d, x, children)) == GraphOf(d)[x := Held(GraphOf(d)[x].inner, children)]
  {
  }

  lemma CountedSame(d: Entries, d': Entries, refs: multiset<Id>, disk: set<Id>, slack: map<Id, int>)
    requires Counted(d, refs, disk, slack)
    requires d'.Keys <= d.Keys && forall y :: y in d' ==> d'[y].parents == d[y].parents
    ensures Counted(d', refs, disk, slack)
  {
  }

  /** A node being torn down drops references from outside, which are already outstanding. */
  lemma SoundDrop(d: Entries, l: Ledger, disk: set<Id>, rank: Id -> nat, x: Id, children: multiset<Id>)
    requires Sound(d, l, disk, rank) && x in l.pending && x in d && children <= Outer(d[x])
    ensures Sound(Relinked(d, x, children), l, disk, rank)
  {
    hide Structured, GraphOf, Refs, Counted, Relinked, Outer;
    GraphRelinked(d, x, children);
    StructuredDrop(GraphOf(d), l, disk, rank, x, children);
    CountedSame(d, Relinked(d, x, children), Refs(GraphOf(d), l.order, l.owed), disk, l.slack);
  }

  lemma StructuredDrop(g: Graph, l: Ledger, disk: set<Id>, rank: Id -> nat, x: Id, children: multiset<Id>)
    requires Structured(g, l, disk, rank) && x in l.pending && x in g && children <= g[x].outer
    ensures var g' := g[x := Held(g[x].inner, children)];
            Structured(g', l, disk, rank) && Refs(g', l.order, l.owed) == Refs(g, l.order, l.owed)
  {
    var g' := g[x := Held(g[x].inner, children)];
    NotListed(g, l.order, l.pending, x);
    assert g'.Keys == g.Keys;
    EdgesSame(g, g', l.order);
    GraphShrinks(g, x, children, disk, rank, Elements(l.order), l.stamp);
    hide Closed, Ranked, Singles, Stamped, Edges;
  }

  lemma NotListed(g: Graph, order: seq<Id>, pending: seq<Id>, x: Id)
    requires Partition(g, order, pending) && x in pending
    ensures x !in order && x !in Elements(order) && x != Meta
  {
    assert x in Elements(pending);
  }

  lemma GraphShrinks(
      g: Graph, x: Id, children: multiset<Id>, disk: set<Id>, rank: Id -> nat, live: set<Id>, stamp: map<Id, nat>)
    requires x in g && Meta in g && x !in live && live <= g.Keys && live <= stamp.Keys
    requires children <= g[x].outer
    requires Closed(g, live, disk, stamp) && Ranked(g, rank) && Singles(g)
    ensures var g' := g[x := Held(g[x].inner, children)];
            Closed(g', live, disk, stamp) && Ranked(g', rank) && Singles(g')
  {
    var g' := g[x := Held(g[x].inner, children)];
    assert forall c :: c in children ==> c in g[x].outer && children[c] <= g[x].outer[c];
    assert forall c :: c in g'[x].All() ==> c in g[x].All();
  }

  /** The meta-root drops a reference, which becomes outstanding. */
  lemma SoundDropRoot(d: Entries, l: Ledger, disk: set<Id>, rank: Id -> nat, c: Id)
    requires Sound(d, l, disk, rank) && Meta in d && c in Outer(d[Meta])
    ensures Sound(Relinked(d, Meta, Outer(d[Meta]) - multiset{c}), l.(owed := l.owed + multiset{c}), disk, rank)
  {
    hide Structured, GraphOf, Refs, Counted, Relinked, Outer;
    var children := Outer(d[Meta]) - multiset{c};
    GraphRelinked(d, Meta, children);
    StructuredDropRoot(GraphOf(d), l, disk, rank, c);
    CountedSame(d, Relinked(d, Meta, children), Refs(GraphOf(d), l.order, l.owed), disk, l.slack);
  }

  lemma StructuredDropRoot(g: Graph, l: Ledger, disk: set<Id>, rank: Id -> nat, c: Id)
    requires Structured(g, l, disk, rank) && Meta in g && c in g[Meta].outer
    ensures var g' := g[Meta := Held(g[Meta].inner, g[Meta].outer - multiset{c})];
            Structured(g', l.(owed := l.owed + multiset{c}), disk, rank) &&
            Refs(g', l.order, l.owed + multiset{c}) == Refs(g, l.order, l.owed)
  {
    var g' := g[Meta := Held(g[Meta].inner, g[Meta].outer - multiset{c})];
    assert g'.Keys == g.Keys;
    EdgesSame(g, g', l.order);
    GraphShrinks(g, Meta, g[Meta].outer - multiset{c}, disk, rank, Elements(l.order), l.stamp);
    hide Closed, Ranked, Singles, Stamped, Edges;
  }

  /** The node torn down last is deleted. */
  lemma SoundForget(d: Entries, l: Ledger, disk: set<Id>, rank: Id -> nat)
    requires Sound(d, l, disk, rank) && l.pending != []
    ensures var n := |l.pending| - 1;
            Sound(d - {l.pending[n]}, l.(pending := l.pending[..n]), disk, rank)
  {
    var n := |l.pending| - 1;
    var x := l.pending[n];
    hide Structured, GraphOf, Refs, Counted;
    GraphForget(d, x);
    StructuredForget(GraphOf(d), l, disk, rank);
    CountedSame(d, d - {x}, Refs(GraphOf(d), l.order, l.owed), disk, l.slack);
  }

  lemma GraphForget(d: Entries, x: Id)
    ensures GraphOf(d - {x}) == GraphOf(d) - {x}
  {
  }

  lemma StructuredForget(g: Graph, l: Ledger, disk: set<Id>, rank: Id -> nat)
    requires Structured(g, l, disk, rank) && l.pending != []
    ensures var n := |l.pending| - 1;
            var g' := g - {l.pending[n]};
            Structured(g', l.(pending := l.pending[..n]), disk, rank) &&
            Refs(g', l.order, l.owed) == Refs(g, l.order, l.owed)
  {
    var x := l.pending[|l.pending| - 1];
    PartitionForget(g, l.order, l.pending);
    EdgesSame(g, g - {x}, l.order);
    GraphForgets(g, x, disk, rank, Elements(l.order), l.stamp);
    hide Closed, Ranked, Singles, Stamped, Edges, Partition;
  }

  lemma PartitionForget(g: Graph, order: seq<Id>, pending: seq<Id>)
    requires Partition(g, order, pending) && pending != []
    ensures var n := |pending| - 1;
            pending[n] !in order && pending[n] !in Elements(order) && pending[n] != Meta &&
            Partition(g - {pending[n]}, order, pending[..n])
  {
    var n := |pending| - 1;
    assert pending == pending[..n] + [pending[n]];
    assert Elements(pending) == Elements(pending[..n]) + {pending[n]};
    assert pending[n] !in Elements(order);
    assert pending[n] !in pending[..n];
  }

  lemma GraphForgets(g: Graph, x: Id, disk: set<Id>, rank: Id -> nat, live: set<Id>, stamp: map<Id, nat>)
    requires Meta in g && x != Meta && x !in live && live <= g.Keys && live <= stamp.Keys
    requires Closed(g, live, disk, stamp) && Ranked(g, rank) && Singles(g)
    ensures Closed(g - {x}, live, disk, stamp) && Ranked(g - {x}, rank) && Singles(g - {x})
  {
  }

  /* ---- Adding a reference ---- */

  /** `d` with the counter of `c` raised, if it is cached. */
  function CountedUp(d: Entries, c: Id): (d': Entries)
    ensures d'.Keys == d.Keys
  {
    if c in d then d[c := d[c].(parents := d[c].parents + 1)] else d
  }

  lemma CountUp(d: Entries, refs: multiset<Id>, disk: set<Id>, slack: map<Id, int>, c: Id)
    requires Counted(d, refs, disk, slack)
    ensures Counted(CountedUp(d, c), refs + multiset{c}, disk, slack)
  {
  }

  lemma GraphCountedUp(d: Entries, c: Id)
    ensures GraphOf(CountedUp(d, c)) == GraphOf(d)
  {
  }

  ghost predicate Older(l: Ledger, child: Id, parent: Id)
  {
    child in l.stamp && parent in l.stamp && l.stamp[child] < l.stamp[parent]
  }

  /**
   Referring from `parent` to `child`: from the meta-root always, from another node once,
   and to something stored or cached before it.
   */
  lemma SoundReference(d: Entries, l: Ledger, disk: set<Id>, rank: Id -> nat, child: Id, parent: Id)
    requires Sound(d, l, disk, rank) && l.pending == [] && child in d && child != Meta && parent in d
    requires parent != Meta ==>
               child !in Outer(d[parent]) && rank(child) < rank(parent) && (child in disk || Older(l, child, parent))
    ensures Sound(Relinked(CountedUp(d, child), parent, Outer(d[parent]) + multiset{child}), l, disk, rank)
  {
    hide Structured, GraphOf, Refs, Counted, CountedUp, Relinked, Outer;
    var up, children := CountedUp(d, child), Outer(d[parent]) + multiset{child};
    GraphAt(d, child);
    GraphAt(d, parent);
    GraphCountedUp(d, child);
    CountUp(d, Refs(GraphOf(d), l.order, l.owed), disk, l.slack, child);
    GraphRelinked(up, parent, children);
    StructuredReference(GraphOf(d), l, disk, rank, child, parent);
    CountedSame(up, Relinked(up, parent, children), Refs(GraphOf(d), l.order, l.owed) + multiset{child}, disk, l.slack);
  }

  lemma StructuredReference(g: Graph, l: Ledger, disk: set<Id>, rank: Id -> nat, child: Id, parent: Id)
    requires Structured(g, l, disk, rank) && l.pending == [] && child in g && child != Meta && parent in g
    requires parent != Meta ==>
               child !in g[parent].outer && rank(child) < rank(parent) && (child in disk || Older(l, child, parent))
    ensures var g' := g[parent := Held(g[parent].inner, g[parent].outer + multiset{child})];
            Structured(g', l, disk, rank) &&
            Refs(g', l.order, l.owed) == Refs(g, l.order, l.owed) + multiset{child}
  {
    var g' := g[parent := Held(g[parent].inner, g[parent].outer + multiset{child})];
    PartitionKeys(g, g', l.order, l.pending);
    assert child in Elements(l.order) && (parent != Meta ==> parent in l.order && parent in Elements(l.order));
    hide Partition, Closed, Ranked, Singles, Stamped, Edges;
    GraphGrows(g, child, parent, disk, rank, Elements(l.order), l.stamp);
    if parent == Meta {
      EdgesSame(g, g', l.order);
    } else {
      EdgesGrow(g, child, parent, l.order);
    }
  }

  lemma PartitionKeys(g: Graph, g': Graph, order: seq<Id>, pending: seq<Id>)
    requires Partition(g, order, pending) && g'.Keys == g.Keys
    ensures Partition(g', order, pending)
  {
  }

  lemma GraphGrows(
      g: Graph, child: Id, parent: Id, disk: set<Id>, rank: Id -> nat, live: set<Id>, stamp: map<Id, nat>)
    requires Meta in g && Meta !in live && live <= g.Keys && live <= stamp.Keys && parent in g
    requires child in live && child != Meta
    requires parent != Meta ==>
               child !in g[parent].outer && rank(child) < rank(parent) && parent in stamp &&
               (child in disk || stamp[child] < stamp[parent])
    requires Closed(g, live, disk, stamp) && Ranked(g, rank) && Singles(g)
    ensures var g' := g[parent := Held(g[parent].inner, g[parent].outer + multiset{child})];
            Closed(g', live, disk, stamp) && Ranked(g', rank) && Singles(g')
  {
    var held := Held(g[parent].inner, g[parent].outer + multiset{child});
    assert forall c :: c in held.All() <==> c in g[parent].All() || c == child;
    assert forall c :: c in held.outer <==> c in g[parent].outer || c == child;
    assert parent != Meta ==> forall c :: c in held.outer ==> held.outer[c] == 1;
    ClosedGrows(g, child, parent, held, disk, live, stamp);
    RankedGrows(g, child, parent, held, rank);
  }

  lemma ClosedGrows(
      g: Graph, child: Id, parent: Id, held: Held, disk: set<Id>, live: set<Id>, stamp: map<Id, nat>)
    requires Meta in g && Meta !in live && live <= g.Keys && live <= stamp.Keys && parent in g && child in live
    requires parent != Meta ==> parent in stamp && (child in disk || stamp[child] < stamp[parent])
    requires forall c :: c in held.All() ==> c in g[parent].All() || c == child
    requires forall c :: c in held.outer ==> c in g[parent].outer || c == child
    requires Closed(g, live, disk, stamp)
    ensures Closed(g[parent := held], live, disk, stamp)
  {
  }

  lemma RankedGrows(g: Graph, child: Id, parent: Id, held: Held, rank: Id -> nat)
    requires parent in g && child != Meta && (parent != Meta ==> rank(child) < rank(parent))
    requires forall c :: c in held.All() ==> c in g[parent].All() || c == child
    requires parent != Meta ==> forall c :: c in held.outer ==> held.outer[c] == 1
    requires Ranked(g, rank) && Singles(g)
    ensures Ranked(g[parent := held], rank) && Singles(g[parent := held])
  {
  }

  lemma {:induction false} EdgesGrow(g: Graph, child: Id, parent: Id, order: seq<Id>)
    requires Within(order, g) && parent in order && Distinct(order)
    ensures var g' := g[parent := Held(g[parent].inner, g[parent].outer + multiset{child})];
            Within(order, g') && Edges(g', order) == Edges(g, order) + multiset{child}
  {
    var g' := g[parent := Held(g[parent].inner, g[parent].outer + multiset{child})];
    if order[0] == parent {
      assert parent !in order[1..];
      EdgesSame(g, g', order[1..]);
    } else {
      EdgesGrow(g, child, parent, order[1..]);
    }
  }

  /* ---- Caching a node ---- */

  function CountedUpAll(d: Entries, ids: seq<Id>): (d': Entries)
    ensures d'.Keys == d.Keys
  {
    if ids == [] then d else CountedUp(CountedUpAll(d, ids[..|ids| - 1]), ids[|ids| - 1])
  }

  lemma {:induction false} CountUpAll(
      d: Entries, refs: multiset<Id>, disk: set<Id>, slack: map<Id, int>, ids: seq<Id>)
    requires Counted(d, refs, disk, slack)
    ensures Counted(CountedUpAll(d, ids), refs + multiset(ids), disk, slack)
    ensures GraphOf(CountedUpAll(d, ids)) == GraphOf(d)
  {
    hide Counted, GraphOf, CountedUp;
    if ids == [] {
      assert refs + multiset(ids) == refs;
    } else {
      var n := |ids| - 1;
      CountUpAll(d, refs, disk, slack, ids[..n]);
      CountUp(CountedUpAll(d, ids[..n]), refs + multiset(ids[..n]), disk, slack, ids[n]);
      GraphCountedUp(CountedUpAll(d, ids[..n]), ids[n]);
      assert ids == ids[..n] + [ids[n]];
      assert refs + multiset(ids[..n]) + multiset{ids[n]} == refs + multiset(ids);
    }
  }

  /** The ledger after `h` is cached; it may already be referred to, if it is stored. */
  ghost function Enlisted(g: Graph, l: Ledger, h: Id): (l': Ledger)
    requires Meta in g && Within(l.order, g)
  {
    l.(order := l.order + [h],
       slack := l.slack[h := -(Refs(g, l.order, l.owed)[h] as int)],
       stamp := l.stamp[h := l.clock],
       clock := l.clock + 1)
  }

  lemma SoundInsert(d: Entries, l: Ledger, disk: set<Id>, rank: Id -> nat, h: Id, e: Entry)
    requires Sound(d, l, disk, rank) && l.pending == [] && l.owed == multiset{} && h !in d && h != Meta
    requires e.parents == 0 && e.children.None?
    requires forall c :: c in Inner(e) ==> c != Meta && rank(c) < rank(h) && (c in d || c in disk)
    ensures Meta in GraphOf(d) && Within(l.order, GraphOf(d))
    ensures Sound(CountedUpAll(d, Inner(e))[h := e], Enlisted(GraphOf(d), l, h), disk, rank)
  {
    hide Structured, GraphOf, Refs, Counted, CountedUpAll, Inner, HeldBy;
    var g, kids := GraphOf(d), Inner(e);
    var up, refs := CountedUpAll(d, kids), Refs(g, l.order, l.owed);
    CountUpAll(d, refs, disk, l.slack, kids);
    GraphKeys(d);
    GraphNew(up, h, e);
    StructuredInsert(g, l, disk, rank, h, kids);
    CountedInsert(up, refs, disk, l.slack, h, e, kids);
  }

  lemma GraphKeys(d: Entries)
    ensures GraphOf(d).Keys == d.Keys
  {
  }

  lemma GraphNew(d: Entries, h: Id, e: Entry)
    requires e.children.None?
    ensures GraphOf(d[h := e]) == GraphOf(d)[h := Held(multiset(Inner(e)), multiset{})]
  {
    assert HeldBy(e) == Held(multiset(Inner(e)), multiset{});
    hide HeldBy;
  }

  lemma CountedInsert(
      d: Entries, refs: multiset<Id>, disk: set<Id>, slack: map<Id, int>, h: Id, e: Entry, kids: seq<Id>)
    requires Counted(d, refs + multiset(kids), disk, slack) && h !in kids && e.parents == 0
    requires h in disk || h !in refs
    ensures Counted(d[h := e], refs + multiset(kids), disk, slack[h := -(refs[h] as int)])
  {
    assert multiset(kids)[h] == 0;
  }

  lemma StructuredInsert(g: Graph, l: Ledger, disk: set<Id>, rank: Id -> nat, h: Id, kids: seq<Id>)
    requires Structured(g, l, disk, rank) && l.pending == [] && l.owed == multiset{} && h !in g && h != Meta
    requires forall c :: c in kids ==> c != Meta && rank(c) < rank(h) && (c in g || c in disk)
    ensures var g', l' := g[h := Held(multiset(kids), multiset{})], Enlisted(g, l, h);
            Structured(g', l', disk, rank) &&
            Refs(g', l'.order, l'.owed) == Refs(g, l.order, l.owed) + multiset(kids)
    ensures h in disk || h !in Refs(g, l.order, l.owed)
  {
    hide Partition, Closed, Ranked, Singles, Stamped, Edges;
    var held := Held(multiset(kids), multiset{});
    assert held.All() == multiset(kids);
    PartitionInsert(g, l.order, h, held);
    StampedInsert(l.order, l.stamp, l.clock, h);
    UnknownUnreferenced(g, l, disk, rank, h);
    EdgesInsert(g, l.order, h, held);
    KidsListed(g, l.order, disk, kids);
    assert forall x :: x in Elements(l.order) ==> l.stamp[x] < l.clock by {
      StampsBelow(l.order, l.stamp, l.clock);
    }
    GraphInsert(g, h, held, disk, rank, Elements(l.order), l.stamp, l.clock);
  }

  lemma StampsBelow(order: seq<Id>, stamp: map<Id, nat>, clock: nat)
    requires Stamped(order, stamp, clock)
    ensures forall x :: x in Elements(order) ==> x in stamp && stamp[x] < clock
  {
  }

  lemma KidsListed(g: Graph, order: seq<Id>, disk: set<Id>, kids: seq<Id>)
    requires Partition(g, order, []) && forall c :: c in kids ==> c != Meta && (c in g || c in disk)
    ensures forall c :: c in kids ==> c in disk || c in Elements(order)
  {
  }

  lemma UnknownUnreferenced(g: Graph, l: Ledger, disk: set<Id>, rank: Id -> nat, h: Id)
    requires Structured(g, l, disk, rank) && l.owed == multiset{} && h !in g
    ensures h in disk || h !in Refs(g, l.order, l.owed)
  {
    EdgesClosed(g, l.order, disk, l.stamp, h);
    hide Edges, Ranked, Singles, Stamped;
  }

  lemma EdgesClosed(g: Graph, order: seq<Id>, disk: set<Id>, stamp: map<Id, nat>, h: Id)
    requires Within(order, g) && Meta in g && Elements(order) <= g.Keys && Elements(order) <= stamp.Keys
    requires Closed(g, Elements(order), disk, stamp)
    ensures h in Edges(g, order) ==> h in disk || h in Elements(order)
  {
    if h in Edges(g, order) {
      var p := EdgesHolder(g, order, h);
      assert p in Elements(order);
    }
  }

  lemma PartitionInsert(g: Graph, order: seq<Id>, h: Id, held: Held)
    requires Partition(g, order, []) && h !in g && h != Meta
    ensures Partition(g[h := held], order + [h], []) && Elements(order + [h]) == Elements(order) + {h}
    ensures h !in order
  {
    assert Elements(order + [h]) == Elements(order) + {h};
    assert h !in Elements(order);
  }

  lemma StampedInsert(order: seq<Id>, stamp: map<Id, nat>, clock: nat, h: Id)
    requires Stamped(order, stamp, clock) && h !in order
    ensures Stamped(order + [h], stamp[h := clock], clock + 1)
  {
  }

  lemma EdgesInsert(g: Graph, order: seq<Id>, h: Id, held: Held)
    requires Within(order, g) && h !in order
    ensures Within(order + [h], g[h := held]) && Edges(g[h := held], order + [h]) == Edges(g, order) + held.All()
  {
    var g' := g[h := held];
    EdgesConcat(g', order, [h]);
    EdgesSame(g, g', order);
    assert [h][1..] == [];
  }

  lemma GraphInsert(
      g: Graph, h: Id, held: Held, disk: set<Id>, rank: Id -> nat, live: set<Id>, stamp: map<Id, nat>, clock: nat)
    requires Meta in g && h !in g && live <= g.Keys && live <= stamp.Keys && held.outer == multiset{}
    requires forall x :: x in live ==> stamp[x] < clock
    requires forall c :: c in held.All() ==> c != Meta && rank(c) < rank(h) && (c in disk || c in live)
    requires Closed(g, live, disk, stamp) && Ranked(g, rank) && Singles(g)
    ensures var g' := g[h := held];
            Closed(g', live + {h}, disk, stamp[h := clock]) && Ranked(g', rank) && Singles(g')
  {
    ClosedInsert(g, h, held, disk, live, stamp, clock);
    RankedInsert(g, h, held, rank);
    hide Closed, Ranked;
  }

  lemma ClosedInsert(g: Graph, h: Id, held: Held, disk: set<Id>, live: set<Id>, stamp: map<Id, nat>, clock: nat)
    requires Meta in g && h !in g && live <= g.Keys && live <= stamp.Keys && Closed(g, live, disk, stamp)
    requires forall x :: x in live ==> stamp[x] < clock
    requires forall c :: c in held.All() ==> c in disk || c in live
    ensures Closed(g[h := held], live + {h}, disk, stamp[h := clock])
  {
    var g', stamp' := g[h := held], stamp[h := clock];
    forall x, c | x in live + {h} && c in g'[x].All()
      ensures c in disk || (c in live + {h} && stamp'[c] < stamp'[x])
    {
      if x != h {
        assert g'[x] == g[x] && stamp'[x] == stamp[x];
      }
    }
    assert g'[Meta] == g[Meta];
  }

  lemma RankedInsert(g: Graph, h: Id, held: Held, rank: Id -> nat)
    requires Ranked(g, rank) && forall c :: c in held.All() ==> c != Meta && rank(c) < rank(h)
    ensures Ranked(g[h := held], rank)
  {
    var g' := g[h := held];
    forall x, c | x in g' && c in g'[x].All()
      ensures c != Meta && (x != Meta ==> rank(c) < rank(x))
    {
      if x != h {
        assert g'[x] == g[x];
      }
    }
  }

  /* ---- Storing and uncaching ---- */

  lemma SoundStored(d: Entries, l: Ledger, disk: set<Id>, disk': set<Id>, rank: Id -> nat)
    requires Sound(d, l, disk, rank) && disk <= disk'
    ensures Sound(d, l, disk', rank)
  {
    hide GraphOf, Refs, Partition, Ranked, Singles, Stamped;
  }

  ghost function Slackened(slack: map<Id, int>, freed: multiset<Id>): (slack': map<Id, int>)
  {
    map c | c in slack :: if slack[c] >= 0 then slack[c] + freed[c] else slack[c]
  }

  /** A stored node leaves the cache; the counters it held up keep their value. */
  lemma SoundUncache(d: Entries, l: Ledger, disk: set<Id>, rank: Id -> nat, k: nat)
    requires Sound(d, l, disk, rank) && l.pending == [] && k < |l.order| && l.order[k] in disk && l.order[k] in d
    ensures var x := l.order[k];
            var slack' := Slackened(l.slack, HeldBy(d[x]).All());
            Sound(d - {x}, l.(order := Without(l.order, k), slack := slack'), disk, rank)
  {
    hide GraphOf, Refs, Counted, Structured, Without, HeldBy, Slackened;
    var x, g := l.order[k], GraphOf(d);
    GraphAt(d, x);
    GraphForget(d, x);
    Basics(g, l, disk, rank);
    StructuredUncache(g, l, disk, rank, k, Slackened(l.slack, g[x].All()));
    RefsUncache(g, l.order, k, l.owed);
    CountedUncache(d, Refs(g, l.order, l.owed), g[x].All(), disk, l.slack, x);
  }

  lemma Basics(g: Graph, l: Ledger, disk: set<Id>, rank: Id -> nat)
    requires Structured(g, l, disk, rank)
    ensures Distinct(l.order) && Meta !in l.order
  {
  }

  lemma RefsUncache(g: Graph, order: seq<Id>, k: nat, owed: multiset<Id>)
    requires Within(order, g) && Meta in g && Meta !in order && k < |order| && Distinct(order)
    ensures var g', order' := g - {order[k]}, Without(order, k);
            Within(order', g') && Meta in g' &&
            g[order[k]].All() <= Refs(g, order, owed) &&
            Refs(g', order', owed) == Refs(g, order, owed) - g[order[k]].All()
  {
    var x, order' := order[k], Without(order, k);
    DistinctWithout(order, k);
    assert x !in Elements(order');
    assert order == order[..k] + [x] + order[k + 1..];
    EdgesRemove(g, order[..k], x, order[k + 1..]);
    EdgesSame(g, g - {x}, order');
    hide Edges;
  }

  lemma CountedUncache(
      d: Entries, refs: multiset<Id>, freed: multiset<Id>, disk: set<Id>, slack: map<Id, int>, x: Id)
    requires Counted(d, refs, disk, slack) && freed <= refs
    ensures Counted(d - {x}, refs - freed, disk, Slackened(slack, freed))
  {
  }

  lemma StructuredUncache(g: Graph, l: Ledger, disk: set<Id>, rank: Id -> nat, k: nat, slack: map<Id, int>)
    requires Structured(g, l, disk, rank) && l.pending == [] && k < |l.order| && l.order[k] in disk
    ensures Structured(g - {l.order[k]}, l.(order := Without(l.order, k), slack := slack), disk, rank)
  {
    hide Partition, Closed, Ranked, Singles, Stamped, Without, Distinct;
    var x, order' := l.order[k], Without(l.order, k);
    PartitionUncache(g, l.order, k);
    StampedWithout(l.order, l.stamp, l.clock, k);
    ClosedWithout(g, Elements(l.order), x, disk, l.stamp);
    GraphForgets(g, x, disk, rank, Elements(order'), l.stamp);
  }

  lemma PartitionUncache(g: Graph, order: seq<Id>, k: nat)
    requires Partition(g, order, []) && k < |order|
    ensures Partition(g - {order[k]}, Without(order, k), [])
    ensures Elements(Without(order, k)) == Elements(order) - {order[k]} && order[k] != Meta
  {
    DistinctWithout(order, k);
    assert forall y :: y in Without(order, k) ==> y in Elements(Without(order, k));
    assert order[k] in Elements(order);
  }
}
