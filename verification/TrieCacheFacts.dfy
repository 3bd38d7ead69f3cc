/**
 Facts about values that the write cache's methods rely on: what stays the same
 when nodes leave the cache, and what a batch of writes may hold.
 */
module TrieCacheFacts {
  import opened Bytes
  import opened TrieNode
  import opened TrieRefs
  import opened FlushList
  import opened TrieLedger
  import opened TrieWeights

  type Storage = map<Id, seq<Byte>>

  /** For each stored node the references it held when it was written. */
  type Below = map<Id, multiset<Id>>

  /** What a name stands for: the bytes, and the names inside them. */
  datatype Content = Content(blob: seq<Byte>, refs: seq<Id>)

  ghost predicate Matches(e: Entry, c: Content)
  {
    e.blob == c.blob && Inner(e) == c.refs
  }

  /** Every reference of a stored node leads to a stored node. */
  ghost predicate StoredClosed(below: Below, disk: set<Id>, content: Id -> Content)
  {
    Meta !in disk && below.Keys == disk && (forall h, c :: h in below && c in below[h] ==> c in disk) &&
    forall h :: h in below ==> multiset(content(h).refs) <= below[h]
  }

  ghost predicate Named(d: Entries, disk: Storage, content: Id -> Content)
  {
    (forall h :: h in d && h != Meta ==> Matches(d[h], content(h))) &&
    (forall h :: h in disk ==> disk[h] == content(h).blob)
  }

  ghost predicate Rooted(d: Entries)
  {
    Meta in d && d[Meta].node.None? && d[Meta].children.Some?
  }

  /** What is left in `d'` is in `d`, with its content; no counter fell to zero and stayed. */
  ghost predicate Survives(d: Entries, d': Entries)
  {
    d'.Keys <= d.Keys &&
    forall h :: h in d' ==>
      d'[h].blob == d[h].blob && d'[h].node == d[h].node && d'[h].size == d[h].size &&
      d'[h].parents <= d[h].parents && (d'[h].parents == 0 ==> d[h].parents == 0)
  }

  lemma SurvivesTrans(a: Entries, b: Entries, c: Entries)
    requires Survives(a, b) && Survives(b, c)
    ensures Survives(a, c)
  {
  }

  lemma SurvivesSame(d: Entries)
    ensures Survives(d, d)
  {
  }

  /** The nodes in `keep` other than `x`, and the meta-root, are as before. */
  ghost predicate UndisturbedBut(d: Entries, d': Entries, keep: seq<Id>, x: Id)
  {
    (Meta in d ==> Meta in d' && d'[Meta] == d[Meta]) &&
    forall p :: p in keep && p != x && p in d ==> p in d' && d'[p] == d[p]
  }

  ghost predicate Undisturbed(d: Entries, d': Entries, keep: seq<Id>)
  {
    UndisturbedBut(d, d', keep, Meta)
  }

  lemma NamedSurvivors(d: Entries, d': Entries, disk: Storage, content: Id -> Content)
    requires Named(d, disk, content) && Survives(d, d')
    ensures Named(d', disk, content)
  {
  }

  lemma CountedDownFacts(d: Entries, c: Id)
    requires c in d
    ensures var d' := CountedDown(d, c);
            d'.Keys == d.Keys && d'[c].blob == d[c].blob &&
            d'[c].parents == (if d[c].parents > 0 then d[c].parents - 1 else 0) &&
            (forall x :: x in d && x != c ==> d'[x] == d[x]) &&
            (forall x :: x in d ==> Weight(d'[x]) == Weight(d[x]) && Outer(d'[x]) == Outer(d[x])) &&
            (d'[c].parents > 0 ==> Survives(d, d'))
  {
  }

  lemma SurvivesAround(d: Entries, d1: Entries, d2: Entries, c: Id)
    requires d1.Keys == d.Keys && (forall x :: x in d && x != c ==> d1[x] == d[x])
    requires Survives(d1, d2) && c !in d2
    ensures Survives(d, d2)
  {
  }

  /** `ids` lists each member of `all` once. */
  ghost predicate Once(ids: seq<Id>, all: multiset<Id>)
  {
    forall c :: multiset(ids)[c] == if c in all then 1 else 0
  }

  /** `childs`: the references from outside in some order, then those inside, left to right. */
  method Childs(e: Entry) returns (ids: seq<Id>, ghost outside: seq<Id>)
    ensures ids == outside + Inner(e)
    ensures Once(outside, Outer(e))
    ensures e.children.None? ==> ids == Inner(e)
  {
    var left := Targets(Outer(e));
    ids, outside := [], [];
    while left != {}
      invariant ids == outside
      invariant forall c :: multiset(outside)[c] == if c in Outer(e) && c !in left then 1 else 0
      invariant left <= Targets(Outer(e)) && (e.children.None? ==> left == {} && ids == [])
    {
      var c :| c in left;
      left := left - {c};
      ids := ids + [c];
      outside := outside + [c];
    }
    ids := ids + Inner(e);
  }

  lemma ChildsAreHeld(e: Entry, outside: seq<Id>)
    requires Once(outside, Outer(e))
    requires forall c :: c in Outer(e) ==> Outer(e)[c] == 1
    ensures multiset(outside) == Outer(e)
    ensures multiset(outside + Inner(e)) == HeldBy(e).All()
  {
    assert forall c :: multiset(outside)[c] == Outer(e)[c];
  }

  const EMPTY: Entries := map[Meta := Entry(None, [], 0, 0, Some(multiset{}))]
  ghost const NEW_LEDGER: Ledger := Ledger([], [], multiset{}, map[], map[], 0)

  lemma SurvivesLess(d: Entries, d': Entries, x: Id)
    requires Survives(d, d')
    ensures Survives(d, d' - {x})
  {
  }

  lemma UndisturbedSame(d: Entries, keep: seq<Id>, x: Id)
    ensures UndisturbedBut(d, d, keep, x)
  {
  }

  lemma UndisturbedTrans(a: Entries, b: Entries, c: Entries, keep: seq<Id>, x: Id)
    requires UndisturbedBut(a, b, keep, x) && UndisturbedBut(b, c, keep, x)
    ensures UndisturbedBut(a, c, keep, x)
  {
  }

  lemma UndisturbedLess(d: Entries, d': Entries, keep: seq<Id>, x: Id)
    requires UndisturbedBut(d, d', keep + [x], x) && x !in keep && x != Meta && Meta !in keep
    ensures Undisturbed(d, d' - {x}, keep)
  {
    assert forall p :: p in keep ==> p in keep + [x];
  }

  lemma UndisturbedKeeps(d: Entries, d': Entries, keep: seq<Id>, x: Id)
    requires Undisturbed(d, d', keep) && x in keep && x in d && x != Meta && Meta !in keep
    ensures x in d' && d'[x] == d[x] && UndisturbedBut(d, d', keep, x)
  {
  }

  /** `ids` are outstanding, and begin with what is held from outside. */
  ghost predicate Due(owed: multiset<Id>, ids: seq<Id>, outside: seq<Id>, outer: multiset<Id>)
  {
    outside <= ids && multiset(outside) == outer && multiset(ids) <= owed
  }

  /** What is still owed, and still held from outside, after the first `i` of `ids` are given up. */
  ghost function Remaining(owed: multiset<Id>, ids: seq<Id>, i: nat): (left: multiset<Id>)
    requires i <= |ids|
  {
    owed - multiset(ids[..i])
  }

  ghost function StillHeld(outside: seq<Id>, i: nat): (left: multiset<Id>)
  {
    if i < |outside| then multiset(outside[i..]) else multiset{}
  }

  lemma OwedFirst(owed: multiset<Id>, ids: seq<Id>, outside: seq<Id>, outer: multiset<Id>)
    requires Due(owed, ids, outside, outer)
    ensures Remaining(owed, ids, 0) == owed && StillHeld(outside, 0) == outer
  {
    assert ids[..0] == [] && outside[0..] == outside;
  }

  lemma OwedNext(owed: multiset<Id>, ids: seq<Id>, i: nat, outside: seq<Id>, outer: multiset<Id>)
    requires i < |ids| && Due(owed, ids, outside, outer)
    ensures ids[i] in Remaining(owed, ids, i)
    ensures Remaining(owed, ids, i) - multiset{ids[i]} == Remaining(owed, ids, i + 1)
    ensures StillHeld(outside, i) - multiset{ids[i]} == StillHeld(outside, i + 1)
  {
    assert ids[..i + 1] == ids[..i] + [ids[i]];
    assert ids == ids[..i + 1] + ids[i + 1..];
    if i < |outside| {
      assert outside[i..] == [outside[i]] + outside[i + 1..];
    }
  }

  lemma OwedLast(owed: multiset<Id>, ids: seq<Id>, outside: seq<Id>, outer: multiset<Id>)
    requires Due(owed, ids, outside, outer)
    ensures Remaining(owed, ids, |ids|) == owed - multiset(ids) && StillHeld(outside, |ids|) == multiset{}
  {
    assert ids[..|ids|] == ids;
  }

  lemma WeightBare(e: Entry)
    requires Outer(e) == multiset{}
    ensures Weight(e) == HASH_LENGTH + e.size + if e.children.Some? then CHILDREN_SIZE else 0
  {
    assert Targets(Outer(e)) == {};
  }

  lemma WeightDrop(e: Entry, c: Id)
    requires c in Outer(e)
    ensures Weight(e.(children := Some(Outer(e) - multiset{c}))) ==
            Weight(e) - if Outer(e)[c] == 1 then CHILD_SIZE else 0
  {
    TargetsLess(Outer(e), c);
  }

  ghost predicate Beneath(rank: Id -> nat, x: Id, pending: seq<Id>)
  {
    forall p :: p in pending ==> rank(x) <= rank(p)
  }

  ghost predicate Descends(rank: Id -> nat, ids: seq<Id>, x: Id)
  {
    forall c :: c in ids ==> c != Meta && rank(c) < rank(x)
  }

  lemma DescendsAt(rank: Id -> nat, ids: seq<Id>, x: Id, i: nat)
    requires Descends(rank, ids, x) && i < |ids|
    ensures ids[i] != Meta && rank(ids[i]) < rank(x)
  {
    assert ids[i] in ids;
  }

  lemma BeneathAll(rank: Id -> nat, c: Id, x: Id, pending: seq<Id>)
    requires Beneath(rank, x, pending) && rank(c) < rank(x)
    ensures forall p :: p in pending ==> rank(c) < rank(p)
  {
  }

  lemma Ranks(rank: Id -> nat, ids: seq<Id>, held: multiset<Id>, x: Id, pending: seq<Id>)
    requires forall c :: c in ids ==> c in held
    requires forall c :: c in held ==> c != Meta && rank(c) < rank(x)
    requires forall p :: p in pending ==> rank(x) < rank(p)
    ensures Descends(rank, ids, x) && Beneath(rank, x, pending + [x])
  {
  }

  lemma OnlySame(l: Ledger)
    ensures Only(l, l)
  {
  }

  lemma OnlyOwed(l: Ledger, owed: multiset<Id>)
    ensures Only(l, l.(owed := owed))
  {
  }

  lemma OnlyTrans(a: Ledger, b: Ledger, c: Ledger)
    requires Only(a, b) && Only(b, c)
    ensures Only(a, c)
  {
  }

  lemma OnlyPending(l: Ledger, l': Ledger)
    requires Only(l, l')
    ensures l'.pending == l.pending
  {
  }

  lemma TornTrans(a: Entries, b: Entries, c: Entries, la: Ledger, lb: Ledger, lc: Ledger, x: Id)
    requires Survives(a, b) && Survives(b, c) && Only(la, lb) && Only(lb, lc)
    requires UndisturbedBut(a, b, la.pending, x) && UndisturbedBut(b, c, lc.pending, x)
    ensures Survives(a, c) && Only(la, lc) && UndisturbedBut(a, c, la.pending, x)
  {
    hide *;
    SurvivesTrans(a, b, c);
    OnlyPending(la, lb);
    OnlyPending(lb, lc);
    OnlyTrans(la, lb, lc);
    UndisturbedTrans(a, b, c, la.pending, x);
  }

  lemma OnlyDetour(l: Ledger, l': Ledger, x: Id)
    requires Only(l.(pending := l.pending + [x]), l')
    ensures l'.pending == l.pending + [x] && l'.pending[..|l'.pending| - 1] == l.pending
    ensures Only(l, l'.(pending := l.pending))
  {
  }

  lemma OwedAll(owed: multiset<Id>, ids: seq<Id>, held: multiset<Id>, outside: seq<Id>, outer: multiset<Id>)
    requires multiset(ids) == held && outside <= ids && multiset(outside) == outer
    ensures owed + held - multiset(ids) == owed
    ensures forall c :: c in ids ==> c in held
    ensures Due(owed + held, ids, outside, outer)
  {
    assert forall c :: c in ids ==> c in multiset(ids);
  }

  lemma ListBasics(d: Entries, l: Ledger, disk: set<Id>, rank: Id -> nat, h: Id)
    requires Sound(d, l, disk, rank) && h !in d
    ensures Meta in d && Listed(l.order, d) && Distinct(l.order) && h !in l.order
  {
    ListedBySound(d, l, disk, rank);
  }

  lemma InnerOf(e: Entry)
    ensures Inner(e) == if e.node.None? then [] else Gather(e.node.value)
    ensures Matches(e, Content(e.blob, if e.node.None? then [] else Gather(e.node.value)))
  {
  }

  lemma InsertFacts(d: Entries, l: Ledger, disk: set<Id>, rank: Id -> nat, h: Id, e: Entry)
    requires Sound(d, l, disk, rank) && l.pending == [] && l.owed == multiset{} && h !in d && h != Meta
    requires e.parents == 0 && e.children.None?
    requires forall c :: c in Inner(e) ==> rank(c) < rank(h) && (c in d || c in disk)
    ensures Meta in GraphOf(d) && Within(l.order, GraphOf(d))
    ensures Sound(CountedUpAll(d, Inner(e))[h := e], Enlisted(GraphOf(d), l, h), disk, rank)
  {
    hide Sound, GraphOf, CountedUpAll, Enlisted;
    forall c | c in Inner(e)
      ensures c != Meta
    {
      GatherNames(e.node.value, c);
    }
    SoundInsert(d, l, disk, rank, h, e);
  }

  lemma {:induction false} GatherNames(n: Node, c: Id)
    requires c in Gather(n)
    ensures c != Meta
    decreases n, 0
  {
    match n
    case Short(_, v) => GatherNames(v, c);
    case Full(k) => GatherAllNames(if |k| > 16 then k[..16] else k, c);
    case _ =>
  }

  lemma {:induction false} GatherAllNames(k: seq<Node>, c: Id)
    requires c in GatherAll(k)
    ensures c != Meta
    decreases k, 1
  {
    if c in Gather(k[0]) {
      GatherNames(k[0], c);
    } else {
      GatherAllNames(k[1..], c);
    }
  }

  lemma {:induction false} CountedUpAllSame(d: Entries, ids: seq<Id>)
    ensures forall x :: x in d ==>
              var e, e' := d[x], CountedUpAll(d, ids)[x];
              e'.blob == e.blob && e'.node == e.node && e'.size == e.size && e'.children == e.children
  {
    if ids != [] {
      CountedUpAllSame(d, ids[..|ids| - 1]);
    }
  }

  lemma InsertNamed(d: Entries, ids: seq<Id>, h: Id, e: Entry, disk: Storage, content: Id -> Content)
    requires Named(d, disk, content) && Matches(e, content(h)) && Rooted(d) && h != Meta
    ensures Named(CountedUpAll(d, ids)[h := e], disk, content) && Rooted(CountedUpAll(d, ids)[h := e])
  {
    CountedUpAllSame(d, ids);
    hide CountedUpAll;
  }

  lemma InsertBurden(d: Entries, ids: seq<Id>, order: seq<Id>, h: Id, e: Entry)
    requires Meta in d && Listed(order, d) && Distinct(order) && h !in d && e.children.None?
    ensures Burden(CountedUpAll(d, ids)[h := e], order + [h], []) == Burden(d, order, []) + HASH_LENGTH + e.size
  {
    CountedUpAllSame(d, ids);
    hide CountedUpAll;
    BurdenSame(d, CountedUpAll(d, ids), order, []);
    BurdenInsert(CountedUpAll(d, ids), order, h, e);
  }

  lemma NamedRelinked(d: Entries, x: Id, children: multiset<Id>, disk: Storage, content: Id -> Content)
    requires Named(d, disk, content) && x in d
    ensures Named(Relinked(d, x, children), disk, content)
  {
  }

  lemma ReleasedRoot(d: Entries, d1: Entries, d2: Entries, root: Id)
    requires Meta in d && root != Meta && d1 == Relinked(d, Meta, Outer(d[Meta]) - multiset{root})
    requires Survives(d1, d2) && Undisturbed(d1, d2, [])
    ensures Survives(d, d2) && Meta in d2 && Outer(d2[Meta]) == Outer(d[Meta]) - multiset{root}
    ensures root in d ==> root in d1 && d1[root] == d[root] && d1.Keys == d.Keys
    ensures root in d && d2 == CountedDown(d1, root) && d[root].parents > 1 ==>
              d2.Keys == d.Keys && d2[root].parents == d[root].parents - 1
  {
  }

  lemma ReferenceKeeps(
      d: Entries, l: Ledger, disk: Storage, rank: Id -> nat, content: Id -> Content, child: Id, parent: Id)
    requires Sound(d, l, disk.Keys, rank) && l.pending == [] && Named(d, disk, content) && Rooted(d)
    requires child in d && child != Meta && parent in d
    requires parent != Meta ==>
               child !in Outer(d[parent]) && rank(child) < rank(parent) &&
               (child in disk || Older(l, child, parent))
    ensures var d' := Relinked(CountedUp(d, child), parent, Outer(d[parent]) + multiset{child});
            Sound(d', l, disk.Keys, rank) && Named(d', disk, content) && Rooted(d') &&
            Burden(d', l.order, []) ==
            Burden(d, l.order, []) + (if child in Outer(d[parent]) then 0 else CHILD_SIZE) +
            if d[parent].children.None? then CHILDREN_SIZE else 0
  {
    hide Sound, Burden, Outer, Older, Named, Relinked, CountedUp, Listed, Distinct;
    ListedBySound(d, l, disk.Keys, rank);
    SoundReference(d, l, disk.Keys, rank, child, parent);
    NamedUp(d, child, disk, content);
    NamedRelinked(CountedUp(d, child), parent, Outer(d[parent]) + multiset{child}, disk, content);
    RootedReference(d, child, parent, Outer(d[parent]) + multiset{child});
    ReferenceBurden(d, l.order, child, parent);
  }

  lemma NamedUp(d: Entries, c: Id, disk: Storage, content: Id -> Content)
    requires Named(d, disk, content)
    ensures Named(CountedUp(d, c), disk, content)
  {
  }

  lemma RootedReference(d: Entries, child: Id, parent: Id, children: multiset<Id>)
    requires Rooted(d) && child in d && parent in d
    ensures Rooted(Relinked(CountedUp(d, child), parent, children))
  {
  }

  lemma ReferenceBurden(d: Entries, order: seq<Id>, child: Id, parent: Id)
    requires Meta in d && Listed(order, d) && Distinct(order) && Meta !in order
    requires child in d && parent in d && child != parent && (parent == Meta || parent in order)
    ensures var children := Outer(d[parent]) + multiset{child};
            Burden(Relinked(CountedUp(d, child), parent, children), order, []) ==
            Burden(d, order, []) + (if child in Outer(d[parent]) then 0 else CHILD_SIZE) +
            if parent != Meta && d[parent].children.None? then CHILDREN_SIZE else 0
  {
    var up, children := CountedUp(d, child), Outer(d[parent]) + multiset{child};
    var e := up[parent].(children := Some(children));
    assert up[parent] == d[parent];
    BurdenSame(d, up, order, []);
    TargetsMore(Outer(d[parent]), child);
    assert Targets(multiset{}) == {};
    if parent == Meta {
      BurdenUpdateRoot(up, order, [], e);
    } else {
      BurdenUpdate(up, order, [], parent, e);
    }
    hide Burden;
  }

  /** A batch holds what its names stand for, and refers only to what is stored or in the batch. */
  ghost predicate Stageable(
    batch: Storage, staged: Below, disk: set<Id>, content: Id -> Content)
  {
    Meta !in batch && staged.Keys == batch.Keys && (forall h :: h in batch ==> batch[h] == content(h).blob) &&
    (forall h, c :: h in staged && c in staged[h] ==> c in disk || c in staged) &&
    forall h :: h in staged ==> multiset(content(h).refs) <= staged[h]
  }

  /** What has been written is remembered, also if it is written again. */
  ghost function Merged(below: Below, staged: Below): (below': Below)
    ensures Grows(below, below') && Grows(staged, below')
  {
    map h | h in below.Keys + staged.Keys ::
      (if h in below then below[h] else multiset{}) + (if h in staged then staged[h] else multiset{})
  }

  ghost predicate Grows(below: Below, below': Below)
  {
    forall h :: h in below ==> h in below' && below[h] <= below'[h]
  }

  lemma GrowsSame(below: Below)
    ensures Grows(below, below)
  {
  }

  lemma GrowsTrans(a: Below, b: Below, c: Below)
    requires Grows(a, b) && Grows(b, c)
    ensures Grows(a, c)
  {
  }

  lemma WriteKeeps(
      d: Entries, l: Ledger, disk: Storage, below: Below,
      batch: Storage, staged: Below, rank: Id -> nat, content: Id -> Content)
    requires Sound(d, l, disk.Keys, rank) && StoredClosed(below, disk.Keys, content) && Named(d, disk, content)
    requires Stageable(batch, staged, disk.Keys, content)
    ensures Sound(d, l, (disk + batch).Keys, rank)
    ensures StoredClosed(Merged(below, staged), (disk + batch).Keys, content) && Named(d, disk + batch, content)
    ensures Extends(disk, disk + batch)
  {
    hide Sound, StoredClosed, Named, Stageable;
    assert (disk + batch).Keys == disk.Keys + batch.Keys;
    SoundStored(d, l, disk.Keys, disk.Keys + batch.Keys, rank);
    StoredWrite(below, disk, batch, staged, content);
    NamedWrite(d, disk, batch, staged, content);
  }

  lemma StoredWrite(
      below: Below, disk: Storage, batch: Storage, staged: Below,
      content: Id -> Content)
    requires StoredClosed(below, disk.Keys, content) && Stageable(batch, staged, disk.Keys, content)
    ensures StoredClosed(Merged(below, staged), disk.Keys + batch.Keys, content)
  {
    var below' := Merged(below, staged);
    MergedFacts(below, staged);
    hide Merged;
    forall h | h in below'
      ensures multiset(content(h).refs) <= below'[h]
    {
      var refs := multiset(content(h).refs);
      if h in below {
        assert refs <= below[h] <= below'[h];
      } else {
        assert refs <= staged[h] <= below'[h];
      }
    }
  }

  lemma MergedFacts(below: Below, staged: Below)
    ensures var below' := Merged(below, staged);
            below'.Keys == below.Keys + staged.Keys && Grows(below, below') && Grows(staged, below') &&
            forall h, c :: h in below' && c in below'[h] ==> (h in below && c in below[h]) || (h in staged && c in staged[h])
  {
  }

  lemma NamedWrite(
      d: Entries, disk: Storage, batch: Storage, staged: Below, content: Id -> Content)
    requires Named(d, disk, content) && Stageable(batch, staged, disk.Keys, content)
    ensures Named(d, disk + batch, content) && Extends(disk, disk + batch)
  {
  }

  const NODE_SIZE := 96

  /** The size of a cache whose running totals add up to `total`, with a fixed amount per node. */
  ghost function SizeOf(d: Entries, total: int): (w: int)
    requires Meta in d
  {
    total + (|d| - 1) * NODE_SIZE - CHILD_SIZE * |Targets(Outer(d[Meta]))|
  }

  /** The reported size is what the nodes weigh, each with its fixed amount, plus the drift. */
  lemma SizeIs(d: Entries, l: Ledger, disk: set<Id>, rank: Id -> nat, total: int)
    requires Sound(d, l, disk, rank) && l.pending == []
    ensures Meta in d
    ensures SizeOf(d, total) ==
            total - Burden(d, l.order, []) + Total(d, l.order) + NODE_SIZE * |l.order|
  {
    ListedBySound(d, l, disk, rank);
    assert d.Keys == {Meta} + Elements(l.order);
    ElementsSize(l.order);
    assert |d| == |d.Keys|;
    hide Sound, Outer;
  }

  lemma {:induction false} ElementsSize(order: seq<Id>)
    requires Distinct(order)
    ensures |Elements(order)| == |order|
  {
    if order != [] {
      ElementsSize(order[1..]);
      assert Elements(order) == {order[0]} + Elements(order[1..]);
      assert order[0] !in Elements(order[1..]);
    }
  }

  lemma FirstOut(order: seq<Id>, oldest: Id, newest: Id, prev: Links, next: Links)
    requires Chained(order, oldest, newest, prev, next) && order != []
    ensures oldest == order[0] && Without(order, 0) == order[1..] && oldest !in Without(order, 0) && oldest in next
  {
    DistinctWithout(order, 0);
    assert oldest !in Elements(Without(order, 0));
  }

  /** Where a cached node stands in the list. */
  lemma Position(
      d: Entries, l: Ledger, disk: Storage, below: Below, rank: Id -> nat, content: Id -> Content, x: Id)
    returns (k: nat)
    requires Sound(d, l, disk.Keys, rank) && l.pending == [] && StoredClosed(below, disk.Keys, content) && x in d && x in disk
    ensures k < |l.order| && l.order[k] == x && x != Meta && x !in Without(l.order, k)
  {
    ListedBySound(d, l, disk.Keys, rank);
    k :| 0 <= k < |l.order| && l.order[k] == x;
    DistinctWithout(l.order, k);
    assert x !in Elements(Without(l.order, k));
  }

  lemma UncacheKeeps(d: Entries, l: Ledger, disk: Storage, rank: Id -> nat, content: Id -> Content, k: nat)
    requires Sound(d, l, disk.Keys, rank) && l.pending == [] && Named(d, disk, content) && Rooted(d)
    requires k < |l.order| && l.order[k] in disk
    ensures var x := l.order[k];
            x in d && x != Meta &&
            var d' := d - {x};
            var l' := l.(order := Without(l.order, k), slack := Slackened(l.slack, HeldBy(d[x]).All()));
            Sound(d', l', disk.Keys, rank) && Named(d', disk, content) && Rooted(d') &&
            Burden(d', l'.order, []) == Burden(d, l.order, []) - Weight(d[x])
  {
    hide Sound, Burden, Slackened, HeldBy, Without, Weight;
    ListedBySound(d, l, disk.Keys, rank);
    assert l.order[k] in l.order;
    SoundUncache(d, l, disk.Keys, rank, k);
    BurdenUncache(d, l.order, k);
  }

  ghost predicate Extends(disk: Storage, disk': Storage)
  {
    forall h :: h in disk ==> h in disk' && disk'[h] == disk[h]
  }

  lemma ExtendsSame(disk: Storage)
    ensures Extends(disk, disk)
  {
  }

  lemma ExtendsTrans(a: Storage, b: Storage, c: Storage)
    requires Extends(a, b) && Extends(b, c)
    ensures Extends(a, c)
  {
  }

  /** `x` has been written with all that it refers to in the cache. */
  ghost predicate Recorded(x: Id, d: Entries, below: Below)
  {
    x in below && (x in d ==> HeldBy(d[x]).All() <= below[x])
  }

  ghost predicate Flushed(order: seq<Id>, k: nat, d: Entries, below: Below)
    requires k <= |order|
  {
    forall i :: 0 <= i < k ==> Recorded(order[i], d, below)
  }

  ghost predicate Staged(order: seq<Id>, k: nat, d: Entries, below: Below, staged: Below)
    requires k <= |order|
  {
    forall i :: 0 <= i < k ==> Recorded(order[i], d, below) || Recorded(order[i], d, staged)
  }

  lemma StagedNone(order: seq<Id>, k: nat, d: Entries, disk: set<Id>, below: Below, content: Id -> Content)
    requires k <= |order| && (k > 0 ==> Flushed(order, k, d, below))
    ensures Stageable(map[], map[], disk, content) && Staged(order, k, d, below, map[])
  {
    hide Recorded;
  }

  lemma StageMore(
      order: seq<Id>, k: nat, d: Entries, below: Below, disk: Storage, batch: Storage, staged: Below, content: Id -> Content)
    requires k < |order| && order[k] != Meta && order[k] in d && Matches(d[order[k]], content(order[k]))
    requires below.Keys == disk.Keys
    requires Stageable(batch, staged, disk.Keys, content) && Staged(order, k, d, below, staged)
    requires forall c :: c in HeldBy(d[order[k]]).All() ==> c in disk || exists i :: 0 <= i < k && order[i] == c
    ensures var x := order[k];
            var batch', staged' := batch[x := d[x].blob], staged[x := HeldBy(d[x]).All()];
            Stageable(batch', staged', disk.Keys, content) && Staged(order, k + 1, d, below, staged')
  {
    var x := order[k];
    assert multiset(content(x).refs) <= HeldBy(d[x]).All();
    StagedNext(order, k, d, below, staged);
    hide *;
    StagedHeld(order, k, d, below, disk, staged, HeldBy(d[x]).All());
    StageAny(batch, staged, disk.Keys, x, d[x].blob, HeldBy(d[x]).All(), content);
  }

  lemma StagedNext(order: seq<Id>, k: nat, d: Entries, below: Below, staged: Below)
    requires k < |order| && order[k] in d && Staged(order, k, d, below, staged)
    ensures Staged(order, k + 1, d, below, staged[order[k] := HeldBy(d[order[k]]).All()])
  {
    hide HeldBy;
  }

  lemma StagedHeld(
      order: seq<Id>, k: nat, d: Entries, below: Below, disk: Storage, staged: Below, held: multiset<Id>)
    requires k < |order| && below.Keys == disk.Keys && Staged(order, k, d, below, staged)
    requires forall c :: c in held ==> c in disk || exists i :: 0 <= i < k && order[i] == c
    ensures forall c :: c in held ==> c in disk || c in staged
  {
    hide HeldBy;
    forall c | c in held && c !in disk
      ensures c in staged
    {
      var i :| 0 <= i < k && order[i] == c;
      assert Recorded(order[i], d, below) || Recorded(order[i], d, staged);
    }
  }

  lemma StageAny(
      batch: Storage, staged: Below, disk: set<Id>, h: Id, blob: seq<Byte>, held: multiset<Id>, content: Id -> Content)
    requires Stageable(batch, staged, disk, content) && h != Meta && blob == content(h).blob
    requires multiset(content(h).refs) <= held && forall c :: c in held ==> c in disk || c in staged
    ensures Stageable(batch[h := blob], staged[h := held], disk, content)
  {
    var staged' := staged[h := held];
    forall x | x in staged'
      ensures multiset(content(x).refs) <= staged'[x]
    {
    }
    forall x, c | x in staged' && c in staged'[x]
      ensures c in disk || c in staged'
    {
    }
  }

  lemma StagedWritten(order: seq<Id>, k: nat, d: Entries, below: Below, staged: Below)
    requires k <= |order| && Staged(order, k, d, below, staged)
    ensures Flushed(order, k, d, Merged(below, staged))
  {
    var below' := Merged(below, staged);
    hide Merged, HeldBy;
    forall i | 0 <= i < k
      ensures Recorded(order[i], d, below')
    {
    }
  }

  /** The size of what is left of the list after its first `k` nodes. */
  ghost function Left(d: Entries, order: seq<Id>, k: nat): (w: int)
    requires k <= |order|
  {
    Total(d, order[k..]) + NODE_SIZE * (|order| - k)
  }

  lemma LeftSame(d: Entries, d': Entries, order: seq<Id>, k: nat, rest: seq<Id>, below: Below)
    requires k <= |order| && rest == order[k..] && Listed(rest, d') && Kept(d, d', below)
    ensures k == |order| ==> rest == []
    ensures Left(d', rest, 0) == Left(d, order, k)
  {
    hide Weight, Total;
    assert rest[0..] == rest;
    TotalSame(d, d', rest);
  }

  /** What a listed node refers to is stored or comes before it in the list. */
  lemma HeldOlder(d: Entries, l: Ledger, disk: set<Id>, rank: Id -> nat, k: nat)
    requires Sound(d, l, disk, rank) && k < |l.order| && l.order[k] in d
    ensures forall c :: c in HeldBy(d[l.order[k]]).All() ==> c in disk || exists i :: 0 <= i < k && l.order[i] == c
  {
    var x, g := l.order[k], GraphOf(d);
    GraphAt(d, x);
    assert x in Elements(l.order);
    hide GraphOf, HeldBy, Counted, Refs, Ranked, Singles;
    forall c | c in g[x].All() && c !in disk
      ensures exists i :: 0 <= i < k && l.order[i] == c
    {
      assert c in Elements(l.order) && l.stamp[c] < l.stamp[x];
      var i :| 0 <= i < |l.order| && l.order[i] == c;
      OlderFirst(l.order, l.stamp, l.clock, i, k);
    }
  }

  lemma OlderFirst(order: seq<Id>, stamp: map<Id, nat>, clock: nat, i: nat, k: nat)
    requires Stamped(order, stamp, clock) && i < |order| && k < |order| && order[i] in stamp && order[k] in stamp
    requires stamp[order[i]] < stamp[order[k]]
    ensures i < k
  {
  }

  lemma WeightParts(e: Entry)
    ensures Weight(e) ==
            HASH_LENGTH + e.size +
            if e.children.None? then 0 else CHILDREN_SIZE + CHILD_SIZE * |Targets(e.children.value)|
  {
  }

  /** Whatever left the cache is stored with what it refers to, and the rest is as it was. */
  ghost predicate Kept(d: Entries, d': Entries, below: Below)
  {
    d'.Keys <= d.Keys && forall h :: h in d ==> if h in d' then d'[h] == d[h] else Recorded(h, d, below)
  }

  lemma KeptSame(d: Entries, below: Below)
    ensures Kept(d, d, below)
  {
  }

  lemma KeptLess(d: Entries, d': Entries, x: Id, below: Below)
    requires Kept(d, d', below) && Recorded(x, d', below)
    ensures Kept(d, d' - {x}, below)
  {
    hide HeldBy;
  }

  lemma KeptLast(d: Entries, below: Below, x: Id, d': Entries)
    requires Kept(d, d', below) && Recorded(x, d, below)
    ensures Recorded(x, d', below)
  {
  }

  lemma NextFlushed(order: seq<Id>, i: nat, k: nat, d: Entries, below: Below, at: Id)
    requires i <= k <= |order| && Flushed(order, k, d, below) && at == if k < |order| then order[k] else Meta
    requires (if i < |order| then order[i] else Meta) != at
    ensures i < k && order[i..] != [] && order[i..][0] == order[i] && Recorded(order[i], d, below)
    ensures order[i..][1..] == order[i + 1..] && order[i] in below
  {
  }

  /** What was in the batch is still in it, or stored and no longer cached. */
  ghost predicate Carried(batch: Storage, batch': Storage, d: Entries, disk: Storage)
  {
    forall h :: h in batch ==> h in batch' || (h in disk && h !in d)
  }

  lemma CarriedSame(batch: Storage, d: Entries, disk: Storage)
    ensures Carried(batch, batch, d, disk)
  {
  }

  lemma CarriedOut(batch: Storage, d: Entries, disk: Storage)
    requires batch.Keys <= disk.Keys && d.Keys !! batch.Keys
    ensures Carried(batch, map[], d, disk)
  {
  }

  lemma CarriedMore(batch: Storage, batch': Storage, h: Id, blob: seq<Byte>, d: Entries, disk: Storage)
    requires Carried(batch, batch', d, disk)
    ensures Carried(batch, batch'[h := blob], d, disk)
  {
  }

  lemma CarriedTrans(
      a: Storage, b: Storage, c: Storage, d: Entries, disk: Storage, d': Entries, disk': Storage, below: Below)
    requires Carried(a, b, d, disk) && Carried(b, c, d', disk') && Extends(disk, disk') && Kept(d, d', below)
    ensures Carried(a, c, d', disk')
  {
  }

  /** Staged references are those of the cached nodes. */
  ghost predicate Tracks(staged: Below, d: Entries)
  {
    forall h :: h in staged ==> Recorded(h, d, staged)
  }

  lemma TracksNone(d: Entries)
    ensures Tracks(map[], d)
  {
  }

  lemma TracksMore(staged: Below, d: Entries, h: Id, e: Entry)
    requires Tracks(staged, d) && (h in d ==> d[h] == e)
    ensures Tracks(staged[h := HeldBy(e).All()], d)
  {
    var staged' := staged[h := HeldBy(e).All()];
    hide HeldBy;
    forall x | x in staged'
      ensures Recorded(x, d, staged')
    {
      assert x != h ==> Recorded(x, d, staged);
    }
  }

  lemma TracksMerged(staged: Below, d: Entries, below: Below, h: Id)
    requires Tracks(staged, d) && h in staged
    ensures Recorded(h, d, Merged(below, staged))
  {
    var below' := Merged(below, staged);
    hide Merged, HeldBy;
    assert Recorded(h, d, staged);
  }

  /** `h` is in the batch, or has left the cache. */
  ghost predicate Cleared(h: Id, d: Entries, batch: Storage)
  {
    h in batch || h !in d
  }

  /** Whatever has been dealt with, so has everything it refers to, as far as that was cached in `d0`. */
  ghost predicate Swept(d0: Entries, d: Entries, batch: Storage)
  {
    forall x, c :: x in d0 && Cleared(x, d, batch) && c in HeldBy(d0[x]).All() && c in d0 ==> Cleared(c, d, batch)
  }

  lemma SweptStart(d: Entries)
    ensures Swept(d, d, map[])
  {
  }

  lemma SweptMore(d0: Entries, d: Entries, batch: Storage, h: Id, e: Entry, ids: seq<Id>, below: Below)
    requires Swept(d0, d, batch) && Kept(d0, d, below) && (h in d ==> d[h] == e) && Covers(ids, HeldBy(e).All())
    requires forall c :: c in ids ==> Cleared(c, d, batch)
    ensures Swept(d0, d, batch[h := e.blob]) && Cleared(h, d, batch[h := e.blob])
  {
    hide HeldBy;
    forall x, c | x in d0 && Cleared(x, d, batch[h := e.blob]) && c in HeldBy(d0[x]).All() && c in d0
      ensures Cleared(c, d, batch[h := e.blob])
    {
      if x == h && h in d {
        assert c in ids;
      } else {
        assert Cleared(x, d, batch);
      }
      assert Cleared(c, d, batch);
    }
  }

  lemma ClearedBy(h: Id, d: Entries, batch: Storage)
    requires h !in d
    ensures Cleared(h, d, batch)
  {
  }

  lemma ClearedStill(h: Id, d: Entries, batch: Storage, d': Entries, disk: Storage, batch': Storage, below: Below)
    requires Cleared(h, d, batch) && Carried(batch, batch', d', disk) && Kept(d, d', below)
    ensures Cleared(h, d', batch') && (h in batch ==> h in disk || h in batch') && (batch' == map[] ==> h !in d')
  {
  }

  /** Nothing new is dealt with when the batch goes out. */
  lemma SweptOut(d0: Entries, d: Entries, batch: Storage, d': Entries, disk: Storage, below: Below)
    requires Swept(d0, d, batch) && Kept(d, d', below) && Carried(batch, map[], d', disk)
    requires forall h :: h in d && h !in d' ==> h in batch
    ensures Swept(d0, d', map[])
  {
    hide HeldBy;
    forall x, c | x in d0 && Cleared(x, d', map[]) && c in HeldBy(d0[x]).All() && c in d0
      ensures Cleared(c, d', map[])
    {
      assert Cleared(x, d, batch);
      assert Cleared(c, d, batch);
    }
  }

  /** Following references among cached nodes. */
  ghost predicate FollowsCached(d: Entries, path: seq<Id>)
  {
    path != [] && (forall i :: 0 <= i < |path| ==> path[i] in d) &&
    forall i, j :: 0 <= i < j < |path| && j == i + 1 ==> path[j] in HeldBy(d[path[i]]).All()
  }

  lemma {:induction false} SweptPath(d0: Entries, d: Entries, path: seq<Id>, k: nat)
    requires Swept(d0, d, map[]) && FollowsCached(d0, path) && path[0] !in d && k < |path|
    ensures path[k] !in d
  {
    hide HeldBy;
    if k > 0 {
      SweptPath(d0, d, path, k - 1);
      assert Cleared(path[k - 1], d, map[]);
      assert Cleared(path[k], d, map[]);
    }
  }

  /** All that could be reached from a committed root among the cached nodes is stored, and no longer cached. */
  ghost predicate Gone(d0: Entries, root: Id, d: Entries, disk: Storage)
  {
    forall path, k :: FollowsCached(d0, path) && path[0] == root && 0 <= k < |path| ==> path[k] in disk && path[k] !in d
  }

  lemma SweptGone(d0: Entries, root: Id, d: Entries, disk: Storage, below: Below)
    requires Swept(d0, d, map[]) && root !in d && Kept(d0, d, below) && below.Keys == disk.Keys
    ensures Gone(d0, root, d, disk)
  {
    hide HeldBy, Swept;
    forall path, k | FollowsCached(d0, path) && path[0] == root && 0 <= k < |path|
      ensures path[k] in disk && path[k] !in d
    {
      SweptPath(d0, d, path, k);
      assert Recorded(path[k], d0, below);
    }
  }

  lemma CommitTrans(
      a: Entries, b: Entries, c: Entries, disk: Storage, disk': Storage, disk'': Storage,
      below: Below, below': Below, below'': Below)
    requires Extends(disk, disk') && Extends(disk', disk'') && Kept(a, b, below') && Kept(b, c, below'')
    requires Grows(below, below') && Grows(below', below'')
    ensures Extends(disk, disk'') && Kept(a, c, below'') && Grows(below, below'')
  {
    hide HeldBy;
    GrowsTrans(below, below', below'');
    forall h | h in a && h !in c
      ensures Recorded(h, a, below'')
    {
      if h !in b {
        assert Recorded(h, a, below');
      } else {
        assert Recorded(h, b, below'');
      }
    }
  }

  lemma ExtendsAt(disk: Storage, disk': Storage, h: Id)
    requires Extends(disk, disk')
    ensures h in disk ==> h in disk'
  {
  }

  lemma KeptAt(d: Entries, d': Entries, below: Below, h: Id)
    requires Kept(d, d', below)
    ensures h in d' ==> h in d && d'[h] == d[h]
  {
  }

  ghost predicate KnownIds(ids: seq<Id>, d: Entries, disk: Storage)
  {
    forall c :: c in ids ==> c in d || c in disk
  }

  ghost predicate Covers(ids: seq<Id>, held: multiset<Id>)
  {
    forall c :: c in held ==> c in ids
  }

  lemma KnownAt(
      ids: seq<Id>, i: nat, d: Entries, disk: Storage, d': Entries, disk': Storage, below: Below)
    requires i < |ids| && KnownIds(ids, d, disk) && Kept(d, d', below) && Extends(disk, disk') && below.Keys == disk'.Keys
    ensures ids[i] in d' || ids[i] in disk'
  {
    hide HeldBy;
    assert ids[i] in ids;
  }

  /** The first `k` of `ids` are dealt with, and stored or in the batch. */
  ghost predicate Settled(ids: seq<Id>, k: nat, d: Entries, disk: Storage, batch: Storage)
    requires k <= |ids|
  {
    forall i :: 0 <= i < k ==> (ids[i] in disk || ids[i] in batch) && Cleared(ids[i], d, batch)
  }

  lemma SettledNone(ids: seq<Id>, d: Entries, disk: Storage, batch: Storage)
    ensures Settled(ids, 0, d, disk, batch)
  {
  }

  lemma SettledNext(
      ids: seq<Id>, i: nat, d: Entries, disk: Storage, batch: Storage, d': Entries, disk': Storage, batch': Storage,
      below: Below)
    requires i < |ids| && Settled(ids, i, d, disk, batch) && Extends(disk, disk') && Carried(batch, batch', d', disk')
    requires (ids[i] in disk' || ids[i] in batch') && Cleared(ids[i], d', batch') && Kept(d, d', below)
    ensures Settled(ids, i + 1, d', disk', batch')
  {
    hide HeldBy;
    forall j | 0 <= j < i + 1
      ensures (ids[j] in disk' || ids[j] in batch') && Cleared(ids[j], d', batch')
    {
    }
  }

  lemma ChildsSame(e: Entry, outside: seq<Id>)
    requires Once(outside, Outer(e))
    ensures forall c :: c in outside + Inner(e) <==> c in HeldBy(e).All()
  {
    assert forall c :: c in outside <==> c in multiset(outside);
    assert forall c :: c in Inner(e) <==> c in multiset(Inner(e));
  }

  lemma Outlined(rank: Id -> nat, ids: seq<Id>, held: multiset<Id>, x: Id, d: Entries, disk: Storage)
    requires forall c :: c in ids <==> c in held
    requires forall c :: c in held ==> c != Meta && rank(c) < rank(x) && (c in d || c in disk)
    ensures Descends(rank, ids, x) && KnownIds(ids, d, disk) && Covers(ids, held)
  {
  }

  lemma StageTop(
      batch: Storage, staged: Below, d: Entries, disk: Storage, h: Id, e: Entry, ids: seq<Id>, content: Id -> Content)
    requires Stageable(batch, staged, disk.Keys, content) && h != Meta && Matches(e, content(h))
    requires Covers(ids, HeldBy(e).All()) && Settled(ids, |ids|, d, disk, batch)
    ensures Stageable(batch[h := e.blob], staged[h := HeldBy(e).All()], disk.Keys, content)
    ensures forall c :: c in ids ==> Cleared(c, d, batch)
  {
    assert multiset(content(h).refs) <= HeldBy(e).All();
    hide HeldBy, Cleared, Stageable;
    forall c | c in HeldBy(e).All()
      ensures c in disk || c in staged
    {
      assert c in ids;
    }
    StageAny(batch, staged, disk.Keys, h, e.blob, HeldBy(e).All(), content);
    forall c | c in ids
      ensures Cleared(c, d, batch)
    {
      var i :| 0 <= i < |ids| && ids[i] == c;
    }
  }

  lemma RootHeld(d: Entries, l: Ledger, disk: set<Id>, rank: Id -> nat, c: Id)
    requires Sound(d, l, disk, rank) && Rooted(d) && l.pending == [] && c in HeldBy(d[Meta]).All()
    ensures c in d || c in disk
  {
    GraphAt(d, Meta);
    GraphKeys(d);
    assert c in Outer(d[Meta]);
    hide GraphOf, HeldBy, Counted, Refs, Ranked, Singles, Stamped;
  }

  /** Some cached node refers to a node whose counter is positive and exact. */
  lemma Holder(d: Entries, l: Ledger, disk: set<Id>, rank: Id -> nat, x: Id) returns (h: Id)
    requires Sound(d, l, disk, rank) && l.owed == multiset{} && x in d && x != Meta
    requires x in l.slack && l.slack[x] == 0 && d[x].parents > 0
    ensures h in d && x in HeldBy(d[h]).All() && (h != Meta ==> h in l.order && rank(x) < rank(h))
  {
    var g := GraphOf(d);
    GraphKeys(d);
    assert Refs(g, l.order, l.owed)[x] > 0;
    hide GraphOf, HeldBy, Closed, Singles, Stamped, Counted;
    if x in g[Meta].outer {
      h := Meta;
      GraphAt(d, h);
    } else {
      h := EdgesHolder(g, l.order, x);
      GraphAt(d, h);
      assert h in Elements(l.order);
    }
  }

  ghost function Top(rank: Id -> nat, order: seq<Id>): (n: nat)
  {
    if order == [] then 0 else
      var n := Top(rank, order[1..]);
      if rank(order[0]) > n then rank(order[0]) else n
  }

  lemma {:induction false} TopBound(rank: Id -> nat, order: seq<Id>, h: Id)
    requires h in order
    ensures rank(h) <= Top(rank, order)
  {
    if order[0] != h {
      TopBound(rank, order[1..], h);
    }
  }

  lemma EmptyFacts(disk: Storage, rank: Id -> nat, content: Id -> Content)
    requires forall h :: h in disk ==> disk[h] == content(h).blob
    ensures Sound(EMPTY, NEW_LEDGER, disk.Keys, rank) && Rooted(EMPTY) && Named(EMPTY, disk, content)
    ensures Burden(EMPTY, [], []) == 0 && Chained([], Meta, Meta, map[Meta := Meta], map[Meta := Meta])
  {
    assert Targets(multiset{}) == {};
    hide Sound;
    EmptySound(disk.Keys, rank);
  }

  lemma EmptySound(disk: set<Id>, rank: Id -> nat)
    ensures Sound(EMPTY, NEW_LEDGER, disk, rank)
  {
    EmptyGraph();
    EmptyStructured(disk, rank);
    hide GraphOf, Structured, Refs;
  }

  lemma EmptyGraph()
    ensures GraphOf(EMPTY) == map[Meta := Held(multiset{}, multiset{})]
  {
  }

  lemma EmptyStructured(disk: set<Id>, rank: Id -> nat)
    ensures Structured(map[Meta := Held(multiset{}, multiset{})], NEW_LEDGER, disk, rank)
  {
    assert Elements([]) == {};
  }

  /** No counter is too high, and every cached node is counted as referred to. */
  ghost predicate ExactCounts(d: Entries, l: Ledger)
  {
    forall c :: c in d && c != Meta ==> c in l.slack && l.slack[c] == 0 && d[c].parents > 0
  }

  lemma ExactKept(d: Entries, l: Ledger, d': Entries, l': Ledger)
    requires Survives(d, d') && Only(l, l')
    ensures ExactCounts(d, l) ==> ExactCounts(d', l')
  {
  }

  lemma NamedLess(d: Entries, x: Id, disk: Storage, content: Id -> Content)
    requires Named(d, disk, content)
    ensures Named(d - {x}, disk, content)
  {
  }

  function Uint16(n: nat): (m: nat)
    ensures m < 0x1_0000 && (n < 0x1_0000 ==> m == n)
  {
    n % 0x1_0000
  }

  /** What `insert` adds to the total for a node of the given size: the sum is taken in 16 bits. */
  function Charge(size: nat): (w: nat)
  {
    Uint16(HASH_LENGTH + size)
  }

  lemma ChargeFacts(n: nat)
    ensures var size := Uint16(n);
            Charge(size) == HASH_LENGTH + size - if size > 65503 then 0x1_0000 else 0
  {
  }

  /** Only the list and the outstanding references differ. */
  ghost predicate Only(l: Ledger, l': Ledger)
  {
    l'.pending == l.pending && l'.slack == l.slack && l'.stamp == l.stamp && l'.clock == l.clock
  }

  lemma HeldFacts(d: Entries, l: Ledger, disk: set<Id>, rank: Id -> nat, x: Id)
    requires Sound(d, l, disk, rank) && x in d && x != Meta
    ensures forall c :: c in HeldBy(d[x]).All() ==> c != Meta && rank(c) < rank(x)
    ensures forall c :: c in Outer(d[x]) ==> Outer(d[x])[c] == 1
  {
    hide GraphOf, HeldBy, Outer, Partition, Counted, Refs, Closed, Stamped, Ranked, Singles;
    GraphAt(d, x);
    HeldInGraph(GraphOf(d), rank, x);
  }

  lemma HeldInGraph(g: Graph, rank: Id -> nat, x: Id)
    requires Ranked(g, rank) && Singles(g) && x in g && x != Meta
    ensures forall c :: c in g[x].All() ==> c != Meta && rank(c) < rank(x)
    ensures forall c :: c in g[x].outer ==> g[x].outer[c] == 1
  {
    forall c | c in g[x].All()
      ensures c != Meta && rank(c) < rank(x)
    {
    }
    forall c | c in g[x].outer
      ensures g[x].outer[c] == 1
    {
    }
  }

  lemma NamedDown(d: Entries, c: Id, disk: Storage, content: Id -> Content)
    requires Named(d, disk, content) && c in d
    ensures Named(CountedDown(d, c), disk, content)
  {
  }
}
