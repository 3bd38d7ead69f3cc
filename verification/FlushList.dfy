/**
 The flush list: cached nodes in the order in which they were cached, doubly
 linked through their names.  The first node's backward link is never relied on,
 since it may be left over from an earlier list.
 */
module FlushList {
  import opened TrieRefs

  type Links = map<Id, Id>

  ghost predicate Distinct(order: seq<Id>)
  {
    forall i, j :: 0 <= i < j < |order| ==> order[i] != order[j]
  }

  /** Following `next` from `oldest` visits exactly `order`, and `prev` leads back. */
  ghost predicate Chained(order: seq<Id>, oldest: Id, newest: Id, prev: Links, next: Links)
  {
    Distinct(order) && Meta !in order && Meta in prev && Meta in next &&
    (forall i :: 0 <= i < |order| ==> order[i] in prev && order[i] in next) &&
    (if order == [] then oldest == Meta
     else oldest == order[0] && newest == order[|order| - 1] && next[newest] == Meta) &&
    (forall i, j :: 0 <= i < j < |order| && j == i + 1 ==> next[order[i]] == order[j] && prev[order[j]] == order[i])
  }

  ghost function Without(order: seq<Id>, k: nat): (rest: seq<Id>)
    requires k < |order|
  {
    order[..k] + order[k + 1..]
  }

  ghost function Elements(order: seq<Id>): (s: set<Id>)
  {
    set x | x in order
  }

  lemma DistinctWithout(order: seq<Id>, k: nat)
    requires Distinct(order) && k < |order|
    ensures Distinct(Without(order, k)) && Elements(Without(order, k)) == Elements(order) - {order[k]}
  {
    var rest := Without(order, k);
    forall x | x in order && x != order[k]
      ensures x in rest
    {
      var j :| 0 <= j < |order| && order[j] == x;
      assert rest[if j < k then j else j - 1] == x;
    }
  }

  lemma UnlinkFirst(order: seq<Id>, oldest: Id, newest: Id, prev: Links, next: Links)
    requires Chained(order, oldest, newest, prev, next) && order != []
    ensures var after := next[oldest];
            Chained(Without(order, 0), after, newest, prev, next) &&
            Chained(Without(order, 0), after, newest, prev[after := Meta], next)
  {
    DistinctWithout(order, 0);
    if |order| > 1 {
      assert next[order[0]] == order[1];
    } else {
      assert order[0] == order[|order| - 1];
    }
  }

  lemma UnlinkLast(order: seq<Id>, oldest: Id, newest: Id, prev: Links, next: Links)
    requires Chained(order, oldest, newest, prev, next) && |order| > 1
    ensures var before := prev[newest];
            Chained(Without(order, |order| - 1), oldest, before, prev, next[before := Meta])
  {
    DistinctWithout(order, |order| - 1);
    assert Without(order, |order| - 1) == order[..|order| - 1];
    assert prev[order[|order| - 1]] == order[|order| - 2];
  }

  lemma UnlinkMiddle(order: seq<Id>, oldest: Id, newest: Id, prev: Links, next: Links, k: nat)
    requires Chained(order, oldest, newest, prev, next) && 0 < k < |order| - 1
    ensures var before, after := prev[order[k]], next[order[k]];
            Chained(Without(order, k), oldest, newest, prev[after := before], next[before := after])
  {
    DistinctWithout(order, k);
    assert prev[order[k]] == order[k - 1] && next[order[k]] == order[k + 1];
  }

  lemma ChainAppend(order: seq<Id>, oldest: Id, newest: Id, prev: Links, next: Links, h: Id)
    requires Chained(order, oldest, newest, prev, next) && h !in order && h != Meta
    ensures var prev', next' := prev[h := newest], next[h := Meta];
            if oldest == Meta then Chained(order + [h], h, h, prev', next')
            else Chained(order + [h], oldest, h, prev', next'[newest := h])
  {
  }

  /** Links of nodes outside the list do not matter. */
  lemma ChainForget(order: seq<Id>, oldest: Id, newest: Id, prev: Links, next: Links, x: Id)
    requires Chained(order, oldest, newest, prev, next) && x !in order && x != Meta
    ensures Chained(order, oldest, newest, prev - {x}, next - {x})
  {
  }
}
