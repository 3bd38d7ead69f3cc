/**
 The download scheduler's bookkeeping as values: pending requests, who waits for
 whom, and what is already stored.
 */
module TrieSyncBooks {
  import opened Bytes
  import opened TrieRefs
  import opened FlushList

  /** How delivered data is read: as a raw entry, or as a trie node whose leaves go to the given callback. */
  datatype Kind = Raw | Trie(callback: nat)

  /** A pending request; `parents` are the requests that wait for it, `deps` counts what it waits for. */
  datatype Request = Request(kind: Kind, data: Option<seq<Byte>>, parents: seq<Id>, depth: int, deps: nat)

  type Requests = map<Id, Request>

  ghost function Waiters(r: Request): (held: Held)
  {
    Held(multiset{}, multiset(r.parents))
  }

  ghost function WaitGraph(rs: Requests): (g: Graph)
  {
    map x | x in rs :: Waiters(rs[x])
  }

  lemma WaitGraphAt(rs: Requests, x: Id)
    requires x in rs
    ensures x in WaitGraph(rs) && WaitGraph(rs)[x] == Waiters(rs[x])
  {
  }

  /**
   What is known about the requests: an order for them, the notifications still to be
   made, what each processed or stored node refers to, the requests whose processing
   failed, and the one being processed.
   */
  datatype Books = Books(
    live: seq<Id>,
    owed: multiset<Id>,
    needs: map<Id, seq<Id>>,
    stuck: set<Id>,
    busy: Id)

  ghost predicate Enumerated(rs: Requests, live: seq<Id>)
    ensures Enumerated(rs, live) ==> Within(live, WaitGraph(rs))
  {
    Distinct(live) && Elements(live) == rs.Keys && Within(live, WaitGraph(rs))
  }

  /** All notifications that are due, by recipient. */
  ghost function Due(rs: Requests, b: Books): (ids: multiset<Id>)
    requires Within(b.live, WaitGraph(rs))
  {
    Base(rs, b.live) + b.owed
  }

  /** The notifications that the requests' lists of waiters call for. */
  ghost function Base(rs: Requests, live: seq<Id>): (ids: multiset<Id>)
    requires Within(live, WaitGraph(rs))
  {
    Edges(WaitGraph(rs), live)
  }

  /** Each counter is the number of notifications its request will get. */
  ghost predicate DepsCount(rs: Requests, due: multiset<Id>)
  {
    (forall p :: p in rs ==> rs[p].deps == due[p]) && (forall p :: p in due ==> p in rs)
  }

  /** Only processed requests wait, and only for what they refer to. */
  ghost predicate WaitsProperly(rs: Requests, due: multiset<Id>, b: Books)
  {
    (forall p :: p in due ==> p in rs && rs[p].data.Some? && (p in b.stuck ==> p == b.busy)) &&
    (forall p :: p in rs && rs[p].data.Some? && p !in b.stuck ==> p in b.needs)
  }

  /** Whatever a processed request refers to is stored, or will notify it. */
  ghost predicate Awaited(rs: Requests, stored: set<Id>, b: Books)
  {
    forall p, c :: p in rs && rs[p].data.Some? && p !in b.stuck && p in b.needs && c in b.needs[p] ==>
      c in stored || (c in rs && p in rs[c].parents)
  }

  /** Every prefix of `order` together with `base` is closed under what nodes refer to. */
  ghost predicate ClosedPrefixes(base: set<Id>, order: seq<Id>, needs: map<Id, seq<Id>>)
  {
    (forall h, c :: h in base && h in needs && c in needs[h] ==> c in base) &&
    (forall i, c :: 0 <= i < |order| && order[i] in needs && c in needs[order[i]] ==> c in base || c in order[..i])
  }

  ghost predicate Booked(rs: Requests, stored: set<Id>, b: Books)
  {
    Enumerated(rs, b.live) && DepsCount(rs, Due(rs, b)) && WaitsProperly(rs, Due(rs, b), b) &&
    Awaited(rs, stored, b) && rs.Keys !! stored && stored <= b.needs.Keys && Meta !in rs
  }

  /* ---- Committing a request ---- */

  /** A request that waits for nothing is done: it is stored, and its waiters are to be notified. */
  lemma Complete(rs: Requests, stored: set<Id>, b: Books, k: nat)
    requires Booked(rs, stored, b) && k < |b.live| && b.live[k] in rs && b.busy == Meta
    requires rs[b.live[k]].data.Some? && rs[b.live[k]].deps == 0 && b.live[k] !in b.stuck
    ensures var x := b.live[k];
            x in b.needs && (forall c :: c in b.needs[x] ==> c in stored) &&
            Booked(rs - {x}, stored + {x}, b.(live := Without(b.live, k), owed := b.owed + multiset(rs[x].parents)))
  {
    hide Enumerated, Due, Without, WaitGraph;
    var x := b.live[k];
    var b' := b.(live := Without(b.live, k), owed := b.owed + multiset(rs[x].parents));
    AllStored(rs, stored, b, x);
    DueRemoved(rs, b, k);
    Removed(rs, Due(rs, b), stored, b, b', x);
  }

  lemma AllStored(rs: Requests, stored: set<Id>, b: Books, x: Id)
    requires Booked(rs, stored, b) && x in rs && rs[x].data.Some? && rs[x].deps == 0 && x !in b.stuck
    ensures x in b.needs && forall c :: c in b.needs[x] ==> c in stored
  {
    hide Enumerated, Due;
    forall c | c in b.needs[x]
      ensures c in stored
    {
      if c in rs && x in rs[c].parents {
        NotDue(rs, b, c, x);
      }
    }
  }

  lemma Removed(rs: Requests, due: multiset<Id>, stored: set<Id>, b: Books, b': Books, x: Id)
    requires DepsCount(rs, due) && WaitsProperly(rs, due, b) && Awaited(rs, stored, b) && rs.Keys !! stored
    requires x in rs && rs[x].deps == 0 && b'.needs == b.needs && b'.stuck == b.stuck && b'.busy == b.busy
    ensures DepsCount(rs - {x}, due) && WaitsProperly(rs - {x}, due, b') && Awaited(rs - {x}, stored + {x}, b')
    ensures (rs - {x}).Keys !! (stored + {x})
  {
  }

  lemma NotDue(rs: Requests, b: Books, c: Id, p: Id)
    requires Enumerated(rs, b.live) && c in rs && p in rs[c].parents
    ensures p in Due(rs, b)
  {
    WaitGraphAt(rs, c);
    assert c in Elements(b.live);
    assert p in WaitGraph(rs)[c].All();
    EdgeOf(WaitGraph(rs), b.live, c, p);
  }

  lemma WaitGraphWithout(rs: Requests, x: Id)
    ensures WaitGraph(rs - {x}) == WaitGraph(rs) - {x}
  {
  }

  lemma EnumeratedWithout(rs: Requests, live: seq<Id>, k: nat)
    requires Enumerated(rs, live) && k < |live|
    ensures Enumerated(rs - {live[k]}, Without(live, k)) && live[k] !in Without(live, k)
  {
    var x, live' := live[k], Without(live, k);
    DistinctWithout(live, k);
    assert forall y :: y in live' ==> y in Elements(live');
    assert Elements(live') == (rs - {x}).Keys;
    hide Waiters;
  }

  lemma DueRemoved(rs: Requests, b: Books, k: nat)
    requires Enumerated(rs, b.live) && k < |b.live| && b.live[k] in rs
    ensures var x := b.live[k];
            var b' := b.(live := Without(b.live, k), owed := b.owed + multiset(rs[x].parents));
            Enumerated(rs - {x}, b'.live) && Due(rs - {x}, b') == Due(rs, b)
  {
    var x, g := b.live[k], WaitGraph(rs);
    WaitGraphAt(rs, x);
    WaitGraphWithout(rs, x);
    EnumeratedWithout(rs, b.live, k);
    assert b.live == b.live[..k] + [x] + b.live[k + 1..];
    assert g[x].All() == multiset(rs[x].parents);
    hide WaitGraph, Enumerated, Waiters, Edges;
    EdgesRemove(g, b.live[..k], x, b.live[k + 1..]);
    EdgesSame(g, g - {x}, Without(b.live, k));
  }

  /** Every processed request other than `x` still waits for something, unless its processing failed. */
  ghost predicate EagerBut(rs: Requests, stuck: set<Id>, x: Id)
  {
    forall p :: p in rs && rs[p].data.Some? && p !in stuck && p != x ==> rs[p].deps > 0
  }

  lemma EagerDown(rs: Requests, stuck: set<Id>, p: Id, n: nat)
    requires EagerBut(rs, stuck, Meta) && p in rs && Meta !in rs
    ensures EagerBut(rs[p := rs[p].(deps := n)], stuck, p)
    ensures n > 0 ==> EagerBut(rs[p := rs[p].(deps := n)], stuck, Meta)
  {
    var rs' := rs[p := rs[p].(deps := n)];
    assert forall q :: q in rs' && q != p ==> rs'[q] == rs[q];
  }

  /* ---- Changing counters ---- */

  ghost predicate SameParents(rs: Requests, rs': Requests)
  {
    rs'.Keys == rs.Keys && forall x :: x in rs ==> rs'[x].parents == rs[x].parents
  }

  lemma SameGraph(rs: Requests, rs': Requests, live: seq<Id>)
    requires SameParents(rs, rs') && Enumerated(rs, live)
    ensures Within(live, WaitGraph(rs)) && Within(live, WaitGraph(rs'))
    ensures Enumerated(rs', live) && Base(rs', live) == Base(rs, live)
  {
    assert WaitGraph(rs') == WaitGraph(rs);
    hide WaitGraph, Base;
  }

  /** One of the notifications that are owed is made. */
  lemma Notify(rs: Requests, stored: set<Id>, b: Books, p: Id)
    requires Booked(rs, stored, b) && p in b.owed && p in rs
    ensures rs[p].deps > 0 && rs[p].data.Some? && (p in b.stuck ==> p == b.busy)
    ensures Booked(rs[p := rs[p].(deps := rs[p].deps - 1)], stored, b.(owed := b.owed - multiset{p}))
  {
    hide *;
    BookedParts(rs, stored, b);
    var due, n := Due(rs, b), rs[p].deps - 1;
    DueOwed(rs, b, p);
    DepsAt(rs, due, b, p);
    var rs', b' := rs[p := rs[p].(deps := n)], b.(owed := b.owed - multiset{p});
    Counterchange(rs, p, n);
    SameGraph(rs, rs', b.live);
    DuePaid(rs, rs', b, p);
    Recounted(rs, due, Due(rs', b'), b, b', p, n);
    AwaitedStill(rs, rs', stored, b, b');
    BookedBy(rs', stored, b');
  }

  lemma Counterchange(rs: Requests, p: Id, n: nat)
    requires p in rs
    ensures var rs' := rs[p := rs[p].(deps := n)];
            SameParents(rs, rs') && rs'.Keys == rs.Keys && forall x :: x in rs ==> rs'[x].data == rs[x].data
  {
  }

  lemma DueOwed(rs: Requests, b: Books, p: Id)
    requires Within(b.live, WaitGraph(rs)) && p in b.owed
    ensures p in Due(rs, b)
  {
    hide Base, WaitGraph;
  }

  lemma {:induction false} NoWaiters(rs: Requests, live: seq<Id>)
    requires Within(live, WaitGraph(rs)) && forall x :: x in live ==> x in rs && rs[x].parents == []
    ensures Base(rs, live) == multiset{}
  {
    if live != [] {
      NoWaiters(rs, live[1..]);
      assert live[0] in live;
    }
  }

  lemma AloneWaitsNot(rs: Requests, stored: set<Id>, b: Books, p: Id)
    requires Booked(rs, stored, b) && rs.Keys == {p} && rs[p].parents == [] && b.owed == multiset{}
    ensures rs[p].deps == 0 && p != Meta
  {
    assert forall x :: x in b.live ==> x in Elements(b.live);
    NoWaiters(rs, b.live);
    hide Base, WaitGraph, Awaited, WaitsProperly;
  }

  lemma BookedParts(rs: Requests, stored: set<Id>, b: Books)
    requires Booked(rs, stored, b)
    ensures Enumerated(rs, b.live) && Within(b.live, WaitGraph(rs))
    ensures DepsCount(rs, Due(rs, b)) && WaitsProperly(rs, Due(rs, b), b)
    ensures Awaited(rs, stored, b) && rs.Keys !! stored && stored <= b.needs.Keys && Meta !in rs
  {
    hide Due, WaitGraph;
  }

  lemma BookedBy(rs: Requests, stored: set<Id>, b: Books)
    requires Enumerated(rs, b.live) && Within(b.live, WaitGraph(rs))
    requires DepsCount(rs, Due(rs, b)) && WaitsProperly(rs, Due(rs, b), b)
    requires Awaited(rs, stored, b) && rs.Keys !! stored && stored <= b.needs.Keys && Meta !in rs
    ensures Booked(rs, stored, b)
  {
    hide Due, WaitGraph;
  }

  /** A request being processed will wait for `n` more. */
  lemma Expect(rs: Requests, stored: set<Id>, b: Books, p: Id, n: nat)
    requires Booked(rs, stored, b) && p in rs && rs[p].data.Some? && p == b.busy
    ensures Booked(rs[p := rs[p].(deps := rs[p].deps + n)], stored, b.(owed := b.owed + multiset{}[p := n]))
  {
    hide Base, WaitGraph, Enumerated, Awaited, DepsCount, WaitsProperly;
    var due := Due(rs, b);
    DepsAt(rs, due, b, p);
    var more := multiset{}[p := n];
    var rs', b' := rs[p := rs[p].(deps := rs[p].deps + n)], b.(owed := b.owed + more);
    SameGraph(rs, rs', b.live);
    assert Due(rs', b') == due + more;
    Recounted(rs, due, due + more, b, b', p, rs[p].deps + n);
    AwaitedStill(rs, rs', stored, b, b');
  }

  lemma DuePaid(rs: Requests, rs': Requests, b: Books, p: Id)
    requires Within(b.live, WaitGraph(rs)) && Within(b.live, WaitGraph(rs')) && p in b.owed
    requires Base(rs', b.live) == Base(rs, b.live)
    ensures var due, due' := Due(rs, b), Due(rs', b.(owed := b.owed - multiset{p}));
            p in due && due' == due - multiset{p} && due'[p] == due[p] - 1 && forall q :: q != p ==> due'[q] == due[q]
  {
    hide Base, WaitGraph;
  }

  lemma DepsAt(rs: Requests, due: multiset<Id>, b: Books, p: Id)
    requires DepsCount(rs, due) && WaitsProperly(rs, due, b) && p in rs
    ensures rs[p].deps == due[p] && (p in due ==> rs[p].data.Some? && (p in b.stuck ==> p == b.busy))
  {
  }

  lemma Recounted(rs: Requests, due: multiset<Id>, due': multiset<Id>, b: Books, b': Books, p: Id, n: nat)
    requires p in rs && n == due'[p] && forall q :: q != p ==> due'[q] == due[q]
    requires DepsCount(rs, due) && WaitsProperly(rs, due, b)
    requires rs[p].data.Some? && (p in b.stuck ==> p == b.busy) && b' == b.(owed := b'.owed)
    ensures var rs' := rs[p := rs[p].(deps := n)];
            DepsCount(rs', due') && WaitsProperly(rs', due', b')
  {
    var rs' := rs[p := rs[p].(deps := n)];
    assert forall q :: q in due' ==> q == p || q in due;
  }

  lemma AwaitedStill(rs: Requests, rs': Requests, stored: set<Id>, b: Books, b': Books)
    requires Awaited(rs, stored, b) && SameParents(rs, rs') && forall x :: x in rs ==> rs'[x].data == rs[x].data
    requires b'.needs == b.needs && b'.stuck == b.stuck
    ensures Awaited(rs', stored, b')
  {
  }

  /* ---- Scheduling ---- */

  /** A new request takes over the notifications that are owed for it. */
  lemma Enqueue(rs: Requests, stored: set<Id>, b: Books, c: Id, r: Request)
    requires Booked(rs, stored, b) && c !in rs && c !in stored && c != Meta
    requires r.data.None? && r.deps == 0 && multiset(r.parents) <= b.owed
    ensures Booked(rs[c := r], stored, b.(live := b.live + [c], owed := b.owed - multiset(r.parents)))
  {
    var b' := b.(live := b.live + [c], owed := b.owed - multiset(r.parents));
    DueEnqueued(rs, b, c, r);
    hide Enumerated, Due;
    Enqueued(rs, Due(rs, b), stored, b, b', c, r);
  }

  lemma Enqueued(rs: Requests, due: multiset<Id>, stored: set<Id>, b: Books, b': Books, c: Id, r: Request)
    requires DepsCount(rs, due) && WaitsProperly(rs, due, b) && Awaited(rs, stored, b) && c !in rs
    requires r.data.None? && r.deps == 0 && b'.needs == b.needs && b'.stuck == b.stuck && b'.busy == b.busy
    ensures DepsCount(rs[c := r], due) && WaitsProperly(rs[c := r], due, b') && Awaited(rs[c := r], stored, b')
  {
  }

  lemma WaitGraphWith(rs: Requests, c: Id, r: Request)
    ensures WaitGraph(rs[c := r]) == WaitGraph(rs)[c := Waiters(r)]
  {
  }

  lemma DueEnqueued(rs: Requests, b: Books, c: Id, r: Request)
    requires Enumerated(rs, b.live) && c !in rs && multiset(r.parents) <= b.owed
    ensures var b' := b.(live := b.live + [c], owed := b.owed - multiset(r.parents));
            Enumerated(rs[c := r], b'.live) && Due(rs[c := r], b') == Due(rs, b)
  {
    hide Base;
    BaseAppend(rs, b.live, c, r);
  }

  lemma BaseAppend(rs: Requests, live: seq<Id>, c: Id, r: Request)
    requires Enumerated(rs, live) && c !in rs
    ensures Enumerated(rs[c := r], live + [c]) && Base(rs[c := r], live + [c]) == Base(rs, live) + multiset(r.parents)
  {
    hide WaitGraph, Waiters, Edges, Within;
    assert c !in Elements(live) && c !in live;
    WaitGraphWith(rs, c, r);
    WaitersAll(r);
    EdgesAppend(WaitGraph(rs), live, c, Waiters(r));
    EnumeratedMore(rs, live, c, r);
  }

  lemma WaitersAll(r: Request)
    ensures Waiters(r).All() == multiset(r.parents)
  {
  }

  lemma EnumeratedMore(rs: Requests, live: seq<Id>, c: Id, r: Request)
    requires Enumerated(rs, live) && c !in live && Within(live + [c], WaitGraph(rs[c := r]))
    ensures Enumerated(rs[c := r], live + [c])
  {
    hide WaitGraph, Within;
    assert Elements(live + [c]) == Elements(live) + {c};
  }

  lemma EdgesAppend(g: Graph, order: seq<Id>, h: Id, held: Held)
    requires Within(order, g) && h !in order
    ensures Within(order + [h], g[h := held]) && Edges(g[h := held], order + [h]) == Edges(g, order) + held.All()
  {
    EdgesConcat(g[h := held], order, [h]);
    EdgesSame(g, g[h := held], order);
    assert [h][1..] == [];
  }

  /** A request that is already pending takes on more waiters. */
  lemma Join(rs: Requests, stored: set<Id>, b: Books, c: Id, ps: seq<Id>)
    requires Booked(rs, stored, b) && c in rs && multiset(ps) <= b.owed
    ensures Booked(rs[c := rs[c].(parents := rs[c].parents + ps)], stored, b.(owed := b.owed - multiset(ps)))
  {
    var r := rs[c].(parents := rs[c].parents + ps);
    var b' := b.(owed := b.owed - multiset(ps));
    DueJoined(rs, b, c, ps);
    hide Enumerated, Due;
    Joined(rs, Due(rs, b), stored, b, b', c, r);
  }

  lemma Joined(rs: Requests, due: multiset<Id>, stored: set<Id>, b: Books, b': Books, c: Id, r: Request)
    requires DepsCount(rs, due) && WaitsProperly(rs, due, b) && Awaited(rs, stored, b) && c in rs
    requires r == rs[c].(parents := r.parents) && rs[c].parents <= r.parents
    requires b'.needs == b.needs && b'.stuck == b.stuck && b'.busy == b.busy
    ensures DepsCount(rs[c := r], due) && WaitsProperly(rs[c := r], due, b') && Awaited(rs[c := r], stored, b')
  {
    assert forall p :: p in rs[c].parents ==> p in r.parents;
  }

  lemma DueJoined(rs: Requests, b: Books, c: Id, ps: seq<Id>)
    requires Enumerated(rs, b.live) && c in rs && multiset(ps) <= b.owed
    ensures var r := rs[c].(parents := rs[c].parents + ps);
            var b' := b.(owed := b.owed - multiset(ps));
            Enumerated(rs[c := r], b'.live) && Due(rs[c := r], b') == Due(rs, b)
  {
    var r, g := rs[c].(parents := rs[c].parents + ps), WaitGraph(rs);
    WaitGraphAt(rs, c);
    WaitGraphWith(rs, c, r);
    assert c in Elements(b.live);
    assert (rs[c := r]).Keys == rs.Keys;
    assert Waiters(r).All() == g[c].All() + multiset(ps);
    hide WaitGraph, Waiters, Edges;
    EdgesRaise(g, b.live, c, Waiters(r), multiset(ps));
  }

  lemma {:induction false} EdgesRaise(g: Graph, order: seq<Id>, c: Id, held: Held, more: multiset<Id>)
    requires Within(order, g) && c in order && Distinct(order) && held.All() == g[c].All() + more
    ensures Within(order, g[c := held]) && Edges(g[c := held], order) == Edges(g, order) + more
  {
    if order[0] == c {
      assert c !in order[1..];
      EdgesSame(g, g[c := held], order[1..]);
    } else {
      EdgesRaise(g, order[1..], c, held, more);
    }
  }

  /* ---- Processing ---- */

  /** The data of a request arrives. */
  lemma Begin(rs: Requests, stored: set<Id>, b: Books, p: Id, data: seq<Byte>)
    requires Booked(rs, stored, b) && p in rs && rs[p].data.None? && b.busy == Meta
    ensures rs[p].deps == 0
    ensures Booked(rs[p := rs[p].(data := Some(data))], stored, b.(stuck := b.stuck + {p}, busy := p))
  {
    var rs', b' := rs[p := rs[p].(data := Some(data))], b.(stuck := b.stuck + {p}, busy := p);
    hide Base, WaitGraph, Enumerated, Awaited;
    SameGraph(rs, rs', b.live);
    var due := Due(rs, b);
    assert p !in due;
    hide DepsCount, WaitsProperly;
    Begun(rs, due, stored, b, p, data);
  }

  lemma Begun(rs: Requests, due: multiset<Id>, stored: set<Id>, b: Books, p: Id, data: seq<Byte>)
    requires DepsCount(rs, due) && WaitsProperly(rs, due, b) && Awaited(rs, stored, b)
    requires p in rs && p !in due && b.busy == Meta && Meta !in rs
    ensures var rs', b' := rs[p := rs[p].(data := Some(data))], b.(stuck := b.stuck + {p}, busy := p);
            DepsCount(rs', due) && WaitsProperly(rs', due, b') && Awaited(rs', stored, b')
  {
  }

  /** All that the node refers to is stored or scheduled. */
  lemma Finish(rs: Requests, stored: set<Id>, b: Books, p: Id, kids: seq<Id>)
    requires Booked(rs, stored, b) && p in rs && rs[p].data.Some? && b.busy == p
    requires forall c :: c in kids ==> c in stored || (c in rs && p in rs[c].parents)
    ensures Booked(rs, stored, b.(needs := b.needs[p := kids], stuck := b.stuck - {p}, busy := Meta))
  {
    hide Base, WaitGraph, Enumerated;
    var due, b' := Due(rs, b), b.(needs := b.needs[p := kids], stuck := b.stuck - {p}, busy := Meta);
    assert Due(rs, b') == due;
    Finished(rs, due, stored, b, p, kids);
  }

  lemma Finished(rs: Requests, due: multiset<Id>, stored: set<Id>, b: Books, p: Id, kids: seq<Id>)
    requires WaitsProperly(rs, due, b) && Awaited(rs, stored, b) && p in rs && rs[p].data.Some? && b.busy == p
    requires forall c :: c in kids ==> c in stored || (c in rs && p in rs[c].parents)
    ensures var b' := b.(needs := b.needs[p := kids], stuck := b.stuck - {p}, busy := Meta);
            WaitsProperly(rs, due, b') && Awaited(rs, stored, b')
  {
  }

  /** Processing failed before anything was scheduled for the node. */
  lemma Abandon(rs: Requests, stored: set<Id>, b: Books, p: Id)
    requires Booked(rs, stored, b) && p in rs && b.busy == p && rs[p].deps == 0
    ensures Booked(rs, stored, b.(busy := Meta))
  {
    hide Base, WaitGraph, Enumerated, Awaited;
    var due, b' := Due(rs, b), b.(busy := Meta);
    assert Due(rs, b') == due && p !in due;
    hide Due;
    AwaitedStill(rs, rs, stored, b, b');
  }

  /* ---- Positions and sizes ---- */

  lemma Position(rs: Requests, stored: set<Id>, b: Books, x: Id) returns (k: nat)
    requires Booked(rs, stored, b) && x in rs
    ensures k < |b.live| && b.live[k] == x && Meta !in rs
  {
    assert x in Elements(b.live);
    k :| 0 <= k < |b.live| && b.live[k] == x;
  }

  lemma FewerRequests(rs: Requests, rs': Requests)
    requires rs'.Keys <= rs.Keys
    ensures |rs'| <= |rs| && (rs'.Keys < rs.Keys ==> |rs'| < |rs|)
  {
    assert |rs| == |rs.Keys| && |rs'| == |rs'.Keys|;
    SubsetSize(rs'.Keys, rs.Keys);
  }

  lemma {:induction false} SubsetSize(a: set<Id>, b: set<Id>)
    requires a <= b
    ensures |a| <= |b| && (a < b ==> |a| < |b|)
  {
    if a == {} {
      if a < b {
        var x :| x in b;
        assert |b| == |b - {x}| + 1;
      }
    } else {
      var x :| x in a;
      SubsetSize(a - {x}, b - {x});
      assert a < b ==> a - {x} < b - {x};
    }
  }

  /* ---- What is written stays closed ---- */

  /** Something whose references are all stored may come next in the order. */
  lemma ClosedMore(base: set<Id>, order: seq<Id>, needs: map<Id, seq<Id>>, x: Id)
    requires ClosedPrefixes(base, order, needs)
    requires x in needs && forall c :: c in needs[x] ==> c in base + Elements(order)
    ensures ClosedPrefixes(base, order + [x], needs)
  {
    var order' := order + [x];
    forall i, c | 0 <= i < |order'| && order'[i] in needs && c in needs[order'[i]]
      ensures c in base || c in order'[..i]
    {
      assert order'[..i] == if i < |order| then order[..i] else order;
    }
  }

  /** The references of something that is neither written nor in the order do not matter. */
  lemma ClosedOther(base: set<Id>, order: seq<Id>, needs: map<Id, seq<Id>>, x: Id, kids: seq<Id>)
    requires ClosedPrefixes(base, order, needs) && x !in base && x !in Elements(order)
    ensures ClosedPrefixes(base, order, needs[x := kids])
  {
    assert forall i :: 0 <= i < |order| ==> order[i] in Elements(order);
  }

  /** Writing the order one by one keeps what is written closed, wherever it stops. */
  lemma ClosedWritten(base: set<Id>, order: seq<Id>, needs: map<Id, seq<Id>>, n: nat)
    requires ClosedPrefixes(base, order, needs) && n <= |order|
    ensures ClosedPrefixes(base + Elements(order[..n]), order, needs)
    ensures ClosedPrefixes(base + Elements(order[..n]), [], needs)
  {
    var base' := base + Elements(order[..n]);
    forall h, c | h in base' && h in needs && c in needs[h]
      ensures c in base'
    {
      if h !in base {
        var i :| 0 <= i < n && order[i] == h;
        assert c in base || c in order[..i];
        assert forall y :: y in order[..i] ==> y in order[..n];
      }
    }
  }
}
