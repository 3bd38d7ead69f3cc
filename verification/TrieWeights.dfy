/**
 Size accounting of the write cache: what the two running totals should add up to,
 and what each elementary change does to that sum.
 */
module TrieWeights {
  import opened Bytes
  import opened TrieRefs
  import opened FlushList
  import opened TrieLedger

  const HASH_LENGTH := 32
  const CHILDREN_SIZE := 48
  const CHILD_SIZE := 34

  /** The children map's keys. */
  function Targets(children: multiset<Id>): (ids: set<Id>)
  {
    set c | c in children
  }

  function ChildrenWeight(e: Entry): (w: int)
  {
    if e.children.None? then 0 else CHILDREN_SIZE + CHILD_SIZE * |Targets(e.children.value)|
  }

  function Weight(e: Entry): (w: int)
  {
    HASH_LENGTH + e.size + ChildrenWeight(e)
  }

  ghost predicate Listed(order: seq<Id>, d: Entries)
  {
    forall x :: x in order ==> x in d
  }

  ghost function Total(d: Entries, order: seq<Id>): (w: int)
  {
    if order == [] then 0 else (if order[0] in d then Weight(d[order[0]]) else 0) + Total(d, order[1..])
  }

  /** What the cached nodes weigh, with the references of the meta-root. */
  ghost function Burden(d: Entries, order: seq<Id>, pending: seq<Id>): (w: int)
  {
    Total(d, order) + Total(d, pending) + if Meta in d then CHILD_SIZE * |Targets(Outer(d[Meta]))| else 0
  }

  lemma {:induction false} TotalConcat(d: Entries, a: seq<Id>, b: seq<Id>)
    requires Listed(a, d) && Listed(b, d)
    ensures Total(d, a + b) == Total(d, a) + Total(d, b)
  {
    hide Weight;
    if a == [] {
      assert a + b == b;
    } else {
      assert (a + b)[1..] == a[1..] + b;
      TotalConcat(d, a[1..], b);
    }
  }

  lemma TotalOne(d: Entries, x: Id)
    requires x in d
    ensures Total(d, [x]) == Weight(d[x])
  {
    assert [x][1..] == [];
    hide Weight;
  }

  lemma TotalWithout(d: Entries, order: seq<Id>, k: nat)
    requires Listed(order, d) && k < |order|
    ensures order[k] in d && Listed(Without(order, k), d)
    ensures Total(d, order) == Total(d, Without(order, k)) + Weight(d[order[k]])
  {
    hide Weight, Total;
    var a, x, b := order[..k], order[k], order[k + 1..];
    assert order == (a + [x]) + b;
    TotalConcat(d, a + [x], b);
    TotalConcat(d, a, [x]);
    TotalConcat(d, a, b);
    TotalOne(d, x);
  }

  lemma {:induction false} TotalSame(d: Entries, d': Entries, order: seq<Id>)
    requires Listed(order, d) && Listed(order, d')
    requires forall x :: x in order ==> x in d && x in d' && Weight(d'[x]) == Weight(d[x])
    ensures Total(d', order) == Total(d, order)
  {
    hide Weight;
    if order != [] {
      TotalSame(d, d', order[1..]);
    }
  }

  /** Changing one node changes the total by the difference in its weight. */
  lemma {:induction false} TotalUpdate(d: Entries, order: seq<Id>, x: Id, e: Entry)
    requires Listed(order, d) && Distinct(order) && x in d
    ensures Listed(order, d[x := e])
    ensures Total(d[x := e], order) == Total(d, order) + if x in order then Weight(e) - Weight(d[x]) else 0
  {
    hide Weight;
    var d' := d[x := e];
    if order != [] {
      if order[0] == x {
        assert x !in order[1..];
      }
      TotalUpdate(d, order[1..], x, e);
    }
  }

  lemma TargetsLess(children: multiset<Id>, c: Id)
    requires c in children
    ensures |Targets(children)| == |Targets(children - multiset{c})| + if children[c] == 1 then 1 else 0
  {
    var less := children - multiset{c};
    if children[c] == 1 {
      assert Targets(children) == Targets(less) + {c};
    } else {
      assert Targets(children) == Targets(less);
    }
  }

  lemma TargetsMore(children: multiset<Id>, c: Id)
    ensures |Targets(children + multiset{c})| == |Targets(children)| + if c in children then 0 else 1
  {
    var more := children + multiset{c};
    if c in children {
      assert Targets(more) == Targets(children);
    } else {
      assert Targets(more) == Targets(children) + {c};
    }
  }

  /* ---- What each change does to the burden ---- */

  lemma ListedBySound(d: Entries, l: Ledger, disk: set<Id>, rank: Id -> nat)
    requires Sound(d, l, disk, rank)
    ensures Meta in d && Listed(l.order, d) && Listed(l.pending, d) && Distinct(l.order) && Distinct(l.pending)
    ensures Meta !in l.order && Meta !in l.pending && forall x :: x in l.pending ==> x !in l.order
    ensures forall x :: x in d && x != Meta && x !in l.pending ==> x in l.order
  {
    GraphKeys(d);
    var g := GraphOf(d);
    hide GraphOf, Counted, Refs, Closed, Ranked, Singles, Stamped;
    assert forall x :: x in l.order <==> x in Elements(l.order);
    assert forall x :: x in l.pending <==> x in Elements(l.pending);
  }

  lemma BurdenSame(d: Entries, d': Entries, order: seq<Id>, pending: seq<Id>)
    requires Meta in d && Listed(order, d) && Listed(pending, d) && d'.Keys == d.Keys
    requires forall x :: x in d ==> Weight(d'[x]) == Weight(d[x]) && Outer(d'[x]) == Outer(d[x])
    ensures Burden(d', order, pending) == Burden(d, order, pending)
  {
    hide Weight, Outer;
    TotalSame(d, d', order);
    TotalSame(d, d', pending);
  }

  lemma BurdenDetach(d: Entries, order: seq<Id>, pending: seq<Id>, k: nat)
    requires Meta in d && Listed(order, d) && Listed(pending, d) && k < |order|
    ensures Listed(Without(order, k), d) && Listed(pending + [order[k]], d)
    ensures Burden(d, Without(order, k), pending + [order[k]]) == Burden(d, order, pending)
  {
    hide Weight, Outer, Total, Without;
    TotalWithout(d, order, k);
    TotalConcat(d, pending, [order[k]]);
    TotalOne(d, order[k]);
  }

  /** A change to one node other than the meta-root. */
  lemma BurdenUpdate(d: Entries, order: seq<Id>, pending: seq<Id>, x: Id, e: Entry)
    requires Meta in d && Listed(order, d) && Listed(pending, d) && Distinct(order) && Distinct(pending)
    requires x in d && x != Meta && (x in order <==> x !in pending)
    ensures Burden(d[x := e], order, pending) == Burden(d, order, pending) + Weight(e) - Weight(d[x])
  {
    hide Weight, Outer;
    TotalUpdate(d, order, x, e);
    TotalUpdate(d, pending, x, e);
  }

  lemma BurdenUpdateRoot(d: Entries, order: seq<Id>, pending: seq<Id>, e: Entry)
    requires Meta in d && Listed(order, d) && Listed(pending, d) && Distinct(order) && Distinct(pending)
    requires Meta !in order && Meta !in pending
    ensures Burden(d[Meta := e], order, pending) ==
            Burden(d, order, pending) + CHILD_SIZE * (|Targets(Outer(e))| - |Targets(Outer(d[Meta]))|)
  {
    hide Weight, Outer;
    TotalUpdate(d, order, Meta, e);
    TotalUpdate(d, pending, Meta, e);
  }

  /** Deleting the node torn down last. */
  lemma BurdenForget(d: Entries, order: seq<Id>, pending: seq<Id>)
    requires Meta in d && Listed(order, d) && Listed(pending, d) && Distinct(pending) && Meta !in pending
    requires pending != [] && forall x :: x in pending ==> x !in order
    ensures var n := |pending| - 1;
            var d' := d - {pending[n]};
            Meta in d' && Listed(order, d') && Listed(pending[..n], d') &&
            Burden(d', order, pending[..n]) == Burden(d, order, pending) - Weight(d[pending[n]])
  {
    hide Weight, Outer, Total;
    var n := |pending| - 1;
    var x := pending[n];
    assert pending == pending[..n] + [x];
    TotalConcat(d, pending[..n], [x]);
    TotalOne(d, x);
    TotalSame(d, d - {x}, order);
    TotalSame(d, d - {x}, pending[..n]);
  }

  lemma BurdenUncache(d: Entries, order: seq<Id>, k: nat)
    requires Meta in d && Listed(order, d) && Distinct(order) && Meta !in order && k < |order|
    ensures var d' := d - {order[k]};
            Meta in d' && Listed(Without(order, k), d') && order[k] in d &&
            Burden(d', Without(order, k), []) == Burden(d, order, []) - Weight(d[order[k]])
  {
    hide Weight, Outer, Total;
    var x, rest := order[k], Without(order, k);
    TotalWithout(d, order, k);
    DistinctWithout(order, k);
    assert x !in Elements(rest);
    TotalSame(d, d - {x}, rest);
    TotalSame(d, d - {x}, []);
  }

  lemma BurdenInsert(d: Entries, order: seq<Id>, h: Id, e: Entry)
    requires Meta in d && Listed(order, d) && Distinct(order) && h !in d
    ensures Listed(order + [h], d[h := e])
    ensures Burden(d[h := e], order + [h], []) == Burden(d, order, []) + Weight(e)
  {
    hide Weight, Outer, Total;
    var d' := d[h := e];
    TotalSame(d, d', order);
    TotalSame(d, d', []);
    TotalConcat(d', order, [h]);
    TotalOne(d', h);
  }
}
