/**
 The order in which a trie is traversed: each node before what is below it, children
 from left to right.  That is increasing order of paths, and the values met on the
 way are exactly the pairs that the trie holds.
 */
module TrieOrder {
  import opened Bytes
  import opened TrieNode

  datatype Visit = Visit(path: Key, node: Node)

  /** Lexicographic order, as byte strings are compared. */
  predicate Before(a: seq<int>, b: seq<int>)
  {
    b != [] && (a == [] || a[0] < b[0] || (a[0] == b[0] && Before(a[1..], b[1..])))
  }

  function Visits(t: Node, p: Key): (s: seq<Visit>)
    decreases t, 2, 0
  {
    [Visit(p, t)] + Below(t, p, -1)
  }

  /** What comes after the child numbered `index` of the node at `p`. */
  function Below(t: Node, p: Key, index: int): (s: seq<Visit>)
    decreases t, 1, 0
  {
    match t
    case Short(k, v) => if index < 0 then Visits(v, p + k) else []
    case Full(c) => if |c| == 17 && index >= -1 then FromChild(c, p, index + 1) else []
    case _ => []
  }

  function FromChild(c: seq<Node>, p: Key, i: nat): (s: seq<Visit>)
    requires |c| == 17
    decreases c, 0, 17 - i
  {
    if i >= 17 then []
    else (if c[i].Nil? then [] else Visits(c[i], p + [i])) + FromChild(c, p, i + 1)
  }

  /* ---- The order is increasing ---- */

  lemma {:induction false} BeforeTrans(a: seq<int>, b: seq<int>, c: seq<int>)
    requires Before(a, b) && Before(b, c)
    ensures Before(a, c)
  {
    if a != [] && a[0] == b[0] == c[0] {
      BeforeTrans(a[1..], b[1..], c[1..]);
    }
  }

  lemma {:induction false} BeforeIrreflexive(a: seq<int>)
    ensures !Before(a, a)
  {
    if a != [] {
      BeforeIrreflexive(a[1..]);
    }
  }

  lemma {:induction false} PrefixBefore(a: seq<int>, b: seq<int>)
    requires a <= b && a != b
    ensures Before(a, b)
  {
    if a != [] {
      PrefixBefore(a[1..], b[1..]);
    }
  }

  /** Paths that part after a common prefix are ordered by where they part. */
  lemma {:induction false} PartBeforeOrder(p: Key, i: Nibble, j: Nibble, a: Key, b: Key)
    requires i < j && p + [i] <= a && p + [j] <= b
    ensures Before(a, b)
  {
    if p == [] {
      assert a[0] == i && b[0] == j;
    } else {
      assert a[0] == p[0] == b[0];
      assert (p + [i])[1..] == p[1..] + [i] && (p + [j])[1..] == p[1..] + [j];
      PartBeforeOrder(p[1..], i, j, a[1..], b[1..]);
    }
  }

  ghost predicate Extending(s: seq<Visit>, p: Key)
  {
    forall i :: 0 <= i < |s| ==> p <= s[i].path
  }

  ghost predicate Increasing(s: seq<Visit>)
  {
    forall i, j :: 0 <= i < j < |s| ==> Before(s[i].path, s[j].path)
  }

  lemma {:induction false} VisitsExtend(t: Node, p: Key)
    ensures Extending(Visits(t, p), p)
    decreases t, 2, 0
  {
    BelowExtends(t, p, -1);
  }

  lemma {:induction false} BelowExtends(t: Node, p: Key, index: int)
    ensures Extending(Below(t, p, index), p)
    decreases t, 1, 0
  {
    match t
    case Short(k, v) =>
      if index < 0 {
        VisitsExtend(v, p + k);
        assert p <= p + k;
      }
    case Full(c) =>
      if |c| == 17 && index >= -1 {
        FromChildExtends(c, p, index + 1);
      }
    case _ =>
  }

  /** What comes from child `i` on extends `p` by a nibble that is at least `i`. */
  lemma {:induction false} FromChildExtends(c: seq<Node>, p: Key, i: nat)
    requires |c| == 17
    ensures Extending(FromChild(c, p, i), p)
    ensures forall k :: 0 <= k < |FromChild(c, p, i)| ==> Through(FromChild(c, p, i)[k].path, p, i)
    decreases c, 0, 17 - i
  {
    if i < 17 {
      FromChildExtends(c, p, i + 1);
      if !c[i].Nil? {
        VisitsExtend(c[i], p + [i]);
        forall k | 0 <= k < |Visits(c[i], p + [i])|
          ensures p <= Visits(c[i], p + [i])[k].path && Through(Visits(c[i], p + [i])[k].path, p, i)
        {
          ThroughFirst(Visits(c[i], p + [i])[k].path, p, i);
        }
      }
    }
  }

  /** `a` goes on from `p` with a nibble that is at least `i`. */
  ghost predicate Through(a: Key, p: Key, i: nat)
  {
    p <= a && |p| < |a| && a[|p|] >= i
  }

  lemma ThroughFirst(a: Key, p: Key, i: Nibble)
    requires p + [i] <= a
    ensures Through(a, p, i)
  {
    assert a[|p|] == (p + [i])[|p|];
  }

  lemma ThroughBefore(a: Key, b: Key, p: Key, i: Nibble)
    requires p + [i] <= a && Through(b, p, i + 1)
    ensures Before(a, b)
  {
    var j := b[|p|];
    assert b == b[..|p|] + [j] + b[|p| + 1..];
    PartBeforeOrder(p, i, j, a, b);
  }

  lemma IncreasingConcat(a: seq<Visit>, b: seq<Visit>)
    requires Increasing(a) && Increasing(b)
    requires forall i, j :: 0 <= i < |a| && 0 <= j < |b| ==> Before(a[i].path, b[j].path)
    ensures Increasing(a + b)
  {
  }

  ghost predicate Placed(t: Node)
  {
    t.Nil? || NonEmptyValue(t) || Minimal(t)
  }

  /** A traversal meets paths in increasing order, so each once. */
  lemma {:induction false} VisitsIncrease(t: Node, p: Key)
    requires Placed(t)
    ensures Increasing(Visits(t, p))
    decreases t, 2, 0
  {
    BelowIncreases(t, p, -1);
    BelowLonger(t, p, -1);
    IncreasingConcat([Visit(p, t)], Below(t, p, -1));
  }

  lemma {:induction false} BelowIncreases(t: Node, p: Key, index: int)
    requires Placed(t)
    ensures Increasing(Below(t, p, index))
    decreases t, 1, 0
  {
    if t.Short? && index < 0 {
      VisitsIncrease(t.val, p + t.key);
    } else if t.Full? && index >= -1 {
      FromChildIncreases(t.children, p, index + 1);
    }
  }

  /** Everything below a node comes after it. */
  lemma BelowLonger(t: Node, p: Key, index: int)
    requires Placed(t)
    ensures forall i :: 0 <= i < |Below(t, p, index)| ==> Before(p, Below(t, p, index)[i].path)
  {
    forall i | 0 <= i < |Below(t, p, index)|
      ensures Before(p, Below(t, p, index)[i].path)
    {
      if t.Short? {
        VisitsExtend(t.val, p + t.key);
      } else {
        FromChildExtends(t.children, p, index + 1);
      }
      PrefixBefore(p, Below(t, p, index)[i].path);
    }
  }

  lemma {:induction false} FromChildIncreases(c: seq<Node>, p: Key, i: nat)
    requires |c| == 17 && forall j :: 0 <= j < 17 ==> Placed(c[j])
    ensures Increasing(FromChild(c, p, i))
    decreases c, 0, 17 - i
  {
    if i < 17 {
      FromChildIncreases(c, p, i + 1);
      if !c[i].Nil? {
        VisitsIncrease(c[i], p + [i]);
        var a, b := Visits(c[i], p + [i]), FromChild(c, p, i + 1);
        forall x, y | 0 <= x < |a| && 0 <= y < |b|
          ensures Before(a[x].path, b[y].path)
        {
          VisitsExtend(c[i], p + [i]);
          FromChildExtends(c, p, i + 1);
          ThroughBefore(a[x].path, b[y].path, p, i);
        }
        IncreasingConcat(a, b);
      }
    }
  }

  /* ---- The values are the trie's pairs ---- */

  /** A value met at a path is what the trie holds there; other nodes are met at unterminated paths. */
  ghost predicate Faithful(e: Visit, t: Node, p: Key)
  {
    p <= e.path &&
    var q := e.path[|p|..];
    if e.node.Value? then Lookup(t, q) == Some(e.node.data) && (if q == [] then t.Value? else Terminated(q))
    else Plain(q)
  }

  lemma {:induction false} VisitsFaithful(t: Node, p: Key, i: nat)
    requires Placed(t) && i < |Visits(t, p)|
    ensures Faithful(Visits(t, p)[i], t, p)
    decreases t, 2, 0
  {
    if i > 0 {
      BelowFaithful(t, p, -1, i - 1);
    }
  }

  lemma {:induction false} BelowFaithful(t: Node, p: Key, index: int, i: nat)
    requires Placed(t) && i < |Below(t, p, index)|
    ensures Faithful(Below(t, p, index)[i], t, p)
    decreases t, 1, 0
  {
    var e := Below(t, p, index)[i];
    if t.Short? {
      VisitsFaithful(t.val, p + t.key, i);
      var q := e.path[|p|..];
      assert q == t.key + e.path[|p + t.key|..];
    } else {
      FromChildFaithful(t.children, p, index + 1, i);
    }
  }

  lemma {:induction false} FromChildFaithful(c: seq<Node>, p: Key, j: nat, i: nat)
    requires Minimal(Full(c)) && i < |FromChild(c, p, j)|
    ensures Faithful(FromChild(c, p, j)[i], Full(c), p)
    decreases c, 0, 17 - j
  {
    var first := if c[j].Nil? then [] else Visits(c[j], p + [j]);
    assert Placed(c[j]);
    if i >= |first| {
      FromChildFaithful(c, p, j + 1, i - |first|);
    } else if j == 16 {
      ValueFaithful(c, p);
    } else {
      VisitsFaithful(c[j], p + [j], i);
      ChildFaithful(c, p, j, first[i]);
    }
    hide Faithful, Visits, Minimal;
  }

  lemma ValueFaithful(c: seq<Node>, p: Key)
    requires Minimal(Full(c)) && c[16].Value?
    ensures Visits(c[16], p + [16]) == [Visit(p + [16], c[16])] && Faithful(Visit(p + [16], c[16]), Full(c), p)
  {
    assert (p + [16])[|p|..] == [16];
  }

  lemma ChildFaithful(c: seq<Node>, p: Key, j: Nibble, e: Visit)
    requires Minimal(Full(c)) && j < 16 && !c[j].Nil? && Faithful(e, c[j], p + [j])
    ensures Faithful(e, Full(c), p)
  {
    var q, r := e.path[|p|..], e.path[|p + [j]|..];
    assert p <= p + [j] <= e.path;
    assert q == [j] + r && q[1..] == r;
  }

  /** Every pair of the trie is met. */
  lemma {:induction false} PairVisited(t: Node, p: Key, q: Key)
    requires Fits(t, q) && Lookup(t, q).Some?
    ensures Visit(p + q, Value(Lookup(t, q).value)) in Visits(t, p)
    decreases t, 2, 0
  {
    match t
    case Value(_) => assert p + q == p;
    case Short(k, v) =>
      FitsVal(k, v, q);
      PairVisited(v, p + k, q[|k|..]);
      assert (p + k) + q[|k|..] == p + q;
    case Full(c) =>
      FitsChild(c, q);
      PairVisited(c[q[0]], p + [q[0]], q[1..]);
      assert (p + [q[0]]) + q[1..] == p + q;
      ChildVisited(c, p, 0, q[0], Visit(p + q, Value(Lookup(t, q).value)));
  }

  lemma {:induction false} ChildVisited(c: seq<Node>, p: Key, j: nat, i: nat, e: Visit)
    requires |c| == 17 && j <= i < 17 && !c[i].Nil? && e in Visits(c[i], p + [i])
    ensures e in FromChild(c, p, j)
    decreases 17 - j
  {
    if j < i {
      ChildVisited(c, p, j + 1, i, e);
    }
  }
}
