/**
 The key-value iterator: it shows the pairs of the trie from a start key on, and what
 that order and that start mean in terms of the key bytes.
 */
module TrieListing {
  import opened Bytes
  import opened TrieNode
  import opened TrieResolve
  import opened TrieOrder
  import opened TrieIterator
  import opened HexKeys

  /** The values of a traversal, under their paths. */
  ghost function Pairs(s: seq<Visit>): (pairs: seq<(Key, seq<Byte>)>)
  {
    if s == [] then []
    else (if s[0].node.Value? then [(s[0].path, s[0].node.data)] else []) + Pairs(s[1..])
  }

  /** The keys of the trie are byte strings in hex form. */
  ghost predicate Keyed(t: Node)
  {
    forall k :: Terminated(k) && Lookup(t, k).Some? ==> |k| % 2 == 1
  }

  /** `s` is part of a traversal of `t`. */
  ghost predicate PartOfVisits(s: seq<Visit>, t: Node)
  {
    forall i :: 0 <= i < |s| ==> Faithful(s[i], t, [])
  }

  lemma VisitsPart(t: Node)
    requires Placed(t)
    ensures PartOfVisits(Visits(t, []), t)
  {
    forall i | 0 <= i < |Visits(t, [])|
      ensures Faithful(Visits(t, [])[i], t, [])
    {
      VisitsFaithful(t, [], i);
    }
  }

  lemma {:induction false} FromSuffix(s: seq<Visit>, key: Key) returns (n: nat)
    ensures n <= |s| && From(s, key) == s[n..]
    ensures forall i :: 0 <= i < n ==> Before(s[i].path, key)
    ensures n < |s| ==> !Before(s[n].path, key)
  {
    if s != [] && Before(s[0].path, key) {
      var m := FromSuffix(s[1..], key);
      n := m + 1;
    } else {
      n := 0;
    }
  }

  /** A visit at a terminated path is at a value, and its path is the hex form of its key. */
  lemma LeafPath(e: Visit, t: Node)
    requires Faithful(e, t, []) && Keyed(t) && !t.Value?
    ensures HasTerm(e.path) <==> e.node.Value?
    ensures HasTerm(e.path) ==>
              Terminated(e.path) && HexToKeybytes(e.path).Some? && KeyToHex(HexToKeybytes(e.path).value) == e.path
  {
    assert e.path[0..] == e.path;
    if HasTerm(e.path) {
      PackHex(Body(e.path));
    }
  }

  lemma PairsHead(s: seq<Visit>)
    requires s != []
    ensures Pairs(s) == (if s[0].node.Value? then [(s[0].path, s[0].node.data)] else []) + Pairs(s[1..])
  {
  }

  lemma PairsNone()
    ensures Pairs([]) == []
  {
  }

  lemma StandsForValue(db: NodeStore, n: Node, t: Node)
    requires StandsFor(db, n, t)
    ensures t.Value? ==> n == t
  {
  }

  class Iterator {
    const nodeIt: NodeIterator
    var key: Option<seq<Byte>>
    var value: Option<seq<Byte>>
    var err: Option<Digest>

    ghost predicate Valid()
      reads this, nodeIt
    {
      nodeIt.Valid() && !nodeIt.trie.Value? && Keyed(nodeIt.trie) && PartOfVisits(nodeIt.Ahead(), nodeIt.trie)
    }

    /** The pairs still to be shown. */
    ghost function ToShow(): (pairs: seq<(Key, seq<Byte>)>)
      reads this, nodeIt
    {
      Pairs(nodeIt.Ahead())
    }

    constructor (nodeIt: NodeIterator)
      requires nodeIt.Valid() && Keyed(nodeIt.trie) && PartOfVisits(nodeIt.Ahead(), nodeIt.trie)
      ensures Valid() && this.nodeIt == nodeIt
    {
      this.nodeIt := nodeIt;
      key, value, err := None, None, None;
    }

    /** `Next`: the first pair still to be shown, or none because there is none or because a node is missing. */
    method Next() returns (ok: bool)
      requires Valid()
      modifies this, nodeIt
      ensures Valid() && nodeIt.db == old(nodeIt.db)
      ensures ok ==> key.Some? && value.Some? && old(ToShow()) == [(KeyToHex(key.value), value.value)] + ToShow()
      ensures !ok ==> key == value == None && ToShow() == old(ToShow())
      ensures !ok && err.None? ==> old(ToShow()) == []
      ensures !ok && err.Some? ==> err.value !in nodeIt.db && err.value in nodeIt.full
    {
      hide Below, StandsFor, Linked, Remaining, Visits, From, Nibbles, KeyToHex, Seeking, Before, Represents, ShapedStore,
           PartOf, Placed, Pairs, Faithful, Keyed, Pack, Terminated, HexToKeybytes, Skipped, NodeIterator.Valid, HasTerm;
      while true
        invariant Valid() && ToShow() == old(ToShow()) && nodeIt.db == old(nodeIt.db)
        decreases |nodeIt.Ahead()|
      {
        ghost var before := nodeIt.Ahead();
        var more, left := nodeIt.Next(true);
        if !more {
          PairsNone();
          break;
        }
        PairsHead(before);
        StandsForValue(nodeIt.full, nodeIt.stack[|nodeIt.stack| - 1].node, before[0].node);
        LeafPath(before[0], nodeIt.trie);
        if HasTerm(nodeIt.path) {
          key := HexToKeybytes(nodeIt.path);
          value := Some(nodeIt.stack[|nodeIt.stack| - 1].node.data);
          return true;
        }
      }
      key, value, err := None, None, nodeIt.Error();
      ok := false;
    }
  }

  /** `NewIterator` over a new node iterator: all that is to be shown from the start on. */
  method List(db: NodeStore, root: Node, start: seq<Byte>, ghost full: NodeStore, ghost trie: Node)
    returns (it: Iterator)
    requires PartOf(db, full) && ShapedStore(full) && Proper(trie) && Keyed(trie) && Represents(full, root, trie)
    ensures fresh(it) && fresh(it.nodeIt) && it.Valid() && it.nodeIt.db == db && it.nodeIt.full == full
    ensures it.ToShow() == Pairs(From(Visits(trie, []), Nibbles(start)))
  {
    var nodeIt := new NodeIterator(db, root, start, full, trie);
    VisitsPart(trie);
    ghost var n := FromSuffix(Visits(trie, []), Nibbles(start));
    it := new Iterator(nodeIt);
    hide *;
  }

  /* ---- Which pairs are shown, and in which order ---- */

  /** Starting at a key drops exactly what is before it. */
  lemma FromMember(s: seq<Visit>, key: Key, e: Visit)
    requires Increasing(s)
    ensures e in From(s, key) <==> e in s && !Before(e.path, key)
  {
    var n := FromSuffix(s, key);
    if e in s {
      var i :| 0 <= i < |s| && s[i] == e;
      if i >= n {
        assert e == s[n..][i - n];
        if i > n && Before(s[i].path, key) {
          BeforeTrans(s[n].path, s[i].path, key);
        }
      } else if e in s[n..] {
        var j :| n <= j < |s| && s[j] == e;
        BeforeIrreflexive(e.path);
      }
    }
  }

  lemma {:induction false} PairsMember(s: seq<Visit>, path: Key, v: seq<Byte>)
    ensures (path, v) in Pairs(s) <==> Visit(path, Value(v)) in s
  {
    if s != [] {
      PairsMember(s[1..], path, v);
      assert s == [s[0]] + s[1..];
    }
  }

  ghost predicate IncreasingPairs(pairs: seq<(Key, seq<Byte>)>)
  {
    forall i, j :: 0 <= i < j < |pairs| ==> Before(pairs[i].0, pairs[j].0)
  }

  lemma {:induction false} PairsIncrease(s: seq<Visit>)
    requires Increasing(s)
    ensures IncreasingPairs(Pairs(s))
  {
    if s != [] {
      PairsIncrease(s[1..]);
      forall j | 0 <= j < |Pairs(s[1..])|
        ensures Before(s[0].path, Pairs(s[1..])[j].0)
      {
        var (path, v) := Pairs(s[1..])[j];
        PairsMember(s[1..], path, v);
        assert Visit(path, Value(v)) in s[1..];
      }
    }
  }

  /** Paths of keys compare as the keys do, except that a key comes after those that extend it. */
  lemma {:induction false} KeyOrder(a: seq<Byte>, b: seq<Byte>)
    ensures Before(KeyToHex(a), KeyToHex(b)) <==> if b <= a then a != b else Before(a, b) && !(a <= b)
  {
    KeyHexParts(a);
    KeyHexParts(b);
    if a != [] && b != [] {
      KeyOrder(a[1..], b[1..]);
      assert a == [a[0]] + a[1..] && b == [b[0]] + b[1..];
    }
    hide KeyToHex;
  }

  lemma KeyHexParts(a: seq<Byte>)
    ensures a == [] ==> KeyToHex(a) == [TERMINATOR]
    ensures a != [] ==>
              var hex := KeyToHex(a);
              |hex| >= 3 && hex[0] == a[0] / 16 && hex[1..][0] == a[0] % 16 && hex[1..][1..] == KeyToHex(a[1..])
  {
  }

  /** Which keys are not before a start: those that are not smaller, and its prefixes. */
  ghost predicate Reached(k: seq<Byte>, start: seq<Byte>)
  {
    k <= start || !Before(k, start)
  }

  lemma {:induction false} StartOrder(k: seq<Byte>, start: seq<Byte>)
    ensures Before(KeyToHex(k), Nibbles(start)) <==> !Reached(k, start)
  {
    KeyHexParts(k);
    NibblesParts(start);
    hide KeyToHex, Nibbles;
    if k != [] && start != [] {
      StartOrder(k[1..], start[1..]);
      assert k == [k[0]] + k[1..] && start == [start[0]] + start[1..];
    }
  }

  lemma NibblesParts(a: seq<Byte>)
    ensures a == [] ==> Nibbles(a) == []
    ensures a != [] ==>
              var hex := Nibbles(a);
              |hex| >= 2 && hex[0] == a[0] / 16 && hex[1..][0] == a[0] % 16 && hex[1..][1..] == Nibbles(a[1..])
  {
  }

  /** The iterator shows each pair of the trie whose key is reached, and no other, once each, in path order. */
  lemma Listing(t: Node, start: seq<Byte>, k: seq<Byte>, v: seq<Byte>)
    requires Proper(t)
    ensures var shown := Pairs(From(Visits(t, []), Nibbles(start)));
            IncreasingPairs(shown) &&
            ((KeyToHex(k), v) in shown <==> Lookup(t, KeyToHex(k)) == Some(v) && Reached(k, start))
  {
    var s := Visits(t, []);
    var key, path := Nibbles(start), KeyToHex(k);
    VisitsIncrease(t, []);
    var n := FromSuffix(s, key);
    assert Increasing(s[n..]);
    PairsIncrease(s[n..]);
    PairsMember(From(s, key), path, v);
    FromMember(s, key, Visit(path, Value(v)));
    StartOrder(k, start);
    VisitedIff(t, k, v);
    hide Pairs, From, Visits, Increasing, IncreasingPairs;
  }

  lemma VisitedIff(t: Node, k: seq<Byte>, v: seq<Byte>)
    requires Proper(t)
    ensures Visit(KeyToHex(k), Value(v)) in Visits(t, []) <==> Lookup(t, KeyToHex(k)) == Some(v)
  {
    var path := KeyToHex(k);
    KeyToHexTerminated(k);
    hide Visits, KeyToHex;
    if Lookup(t, path) == Some(v) {
      PairVisited(t, [], path);
      assert [] + path == path;
    }
    if Visit(path, Value(v)) in Visits(t, []) {
      var i :| 0 <= i < |Visits(t, [])| && Visits(t, [])[i] == Visit(path, Value(v));
      VisitsFaithful(t, [], i);
      assert path[0..] == path;
    }
  }

  /** A start is not a lower bound on the key bytes: a key that is a proper prefix of it is shown too. */
  lemma PrefixShown()
    ensures var t := Short(KeyToHex([1]), Value([7]));
            var shown := Pairs(From(Visits(t, []), Nibbles([1, 0])));
            Before([1], [1, 0]) && (KeyToHex([1]), [7]) in shown
  {
    var t := Short(KeyToHex([1]), Value([7]));
    KeyToHexTerminated([1]);
    Listing(t, [1, 0], [1], [7]);
    PrefixBefore([1], [1, 0]);
  }
}
