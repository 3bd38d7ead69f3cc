/**
 The trie object: a root that its operations replace, over a database they read.
 */
module Tries {
  import opened Bytes
  import opened TrieNode
  import opened TrieUpdate
  import opened TrieCanonical
  import opened HexKeys
  import R = TrieResolve

  /** Whatever represents a proper trie has the shape the operations expect. */
  lemma {:induction false} RepresentsShaped(db: R.NodeStore, n: Node, t: Node)
    requires R.ShapedStore(db) && R.Represents(db, n, t) && Minimal(t)
    ensures n.Hash? || R.Shaped(n)
    decreases t
  {
    match t
    case Short(k, v) =>
      if n.Short? {
        R.RepresentsNil(db, n.val, v);
        if v.Full? {
          RepresentsShaped(db, n.val, v);
        }
      }
    case Full(c) =>
      if n.Full? {
        forall i | 0 <= i < 17
          ensures c[i].Nil? <==> n.children[i].Nil?
          ensures i == 16 ==> n.children[i] == c[i]
          ensures i < 16 && !c[i].Nil? ==> n.children[i].Hash? || R.Shaped(n.children[i])
        {
          R.RepresentsNil(db, n.children[i], c[i]);
          if i < 16 && !c[i].Nil? {
            RepresentsShaped(db, n.children[i], c[i]);
          }
        }
        var i, j :| 0 <= i < j < |c| && !c[i].Nil? && !c[j].Nil?;
        assert !n.children[i].Nil? && !n.children[j].Nil?;
      }
  }

  /** The loop in `delete` that looks for a single remaining child: -1 for none, -2 for two or more. */
  method RemainingChild(c: seq<Node>) returns (pos: int)
    requires |c| == 17
    ensures pos >= 0 ==> Remaining(c) == Some(pos)
    ensures pos < 0 ==> Remaining(c) == None
    ensures pos == -1 <==> forall i :: 0 <= i < 17 ==> c[i].Nil?
  {
    pos := -1;
    var i := 0;
    while i < 17
      invariant 0 <= i <= 17 && -1 <= pos < i
      invariant pos == -1 ==> forall j :: 0 <= j < i ==> c[j].Nil?
      invariant pos >= 0 ==> !c[pos].Nil? && forall j :: 0 <= j < i && j != pos ==> c[j].Nil?
    {
      if !c[i].Nil? {
        if pos == -1 {
          pos := i;
        } else {
          assert forall k :: 0 <= k < 17 ==> !OnlyAt(c, k);
          return -2;
        }
      }
      i := i + 1;
    }
    if pos >= 0 {
      assert OnlyAt(c, pos);
    }
  }

  /** What one `TryUpdate` does to the map: an empty value deletes. */
  ghost function Updated(t: Node, key: Key, value: seq<Byte>): (t': Node)
    requires Proper(t) && Terminated(key)
    ensures Proper(t')
    ensures forall k :: Terminated(k) ==>
              Lookup(t', k) == if k != key then Lookup(t, k) else if value == [] then None else Some(value)
  {
    if value == [] then
      DeleteMinimal(t, key);
      assert forall k :: Terminated(k) ==> Lookup(Delete(t, key), k) == if k == key then None else Lookup(t, k) by {
        forall k | Terminated(k) { LookupDelete(t, key, k); }
      }
      Delete(t, key)
    else
      InsertMinimal(t, key, Value(value));
      assert forall k :: Terminated(k) ==>
               Lookup(Insert(t, key, Value(value)), k) == if k == key then Some(value) else Lookup(t, k) by {
        forall k | Terminated(k) { LookupInsert(t, key, Value(value), k); }
      }
      Insert(t, key, Value(value))
  }

  class Trie {
    const db: R.NodeStore
    var root: Node

    /**
     The root and `full` together are the hash-free trie `t`.  The database has all of
     `full`, or a part of it: then some operations will report a missing node.
     */
    ghost predicate Holds(t: Node, full: R.NodeStore)
      reads this
    {
      Proper(t) && R.ShapedStore(full) && R.PartOf(db, full) && R.Represents(full, root, t)
    }

    /** What the operations need in order to run, with or without missing nodes. */
    ghost predicate Callable()
      reads this
    {
      R.ShapedStore(db) && (root.Nil? || root.Hash? || R.Shaped(root))
    }

    /** `New`: the given root is loaded at once, so a missing one is reported here. */
    constructor (rootNode: Node, db: R.NodeStore)
      requires R.ShapedStore(db)
      requires rootNode.Nil? || R.Shaped(rootNode)
      ensures Callable() && this.root == rootNode && this.db == db
    {
      this.root := rootNode;
      this.db := db;
    }

    lemma HoldsCallable(t: Node, full: R.NodeStore)
      requires Holds(t, full)
      ensures Callable()
    {
      if t.Nil? {
        R.RepresentsNil(full, root, t);
      } else {
        RepresentsShaped(full, root, t);
      }
    }

    /** `TryGet`: reads the represented trie; nodes loaded on the way stay loaded, and it still holds the same trie. */
    method TryGet(key: seq<Byte>) returns (r: R.Outcome<Option<seq<Byte>>>)
      requires Callable()
      modifies this`root
      ensures r.Missing? ==> root == old(root) && r.digest !in db && Callable()
      ensures forall t, full :: old(Holds(t, full)) ==>
                Holds(t, full) && Callable() && (if r.Missing? then r.digest in full else r.value == Lookup(t, KeyToHex(key)))
    {
      var k := KeybytesToHex(key);
      KeyToHexTerminated(key);
      ghost var before := root;
      var got := R.TryGet(db, root, k);
      forall t, full | old(Holds(t, full))
        ensures if got.Missing? then got.digest in full
                else got.value.value == Lookup(t, k) && R.Represents(full, got.value.node, t)
      {
        R.TryGetSimulates(db, full, before, t, k);
      }
      if got.Missing? {
        r := R.Missing(got.digest);
      } else {
        if got.value.resolved {
          root := got.value.node;
        }
        r := R.Ok(got.value.value);
      }
      forall t, full | Holds(t, full)
        ensures Callable()
      {
        HoldsCallable(t, full);
      }
    }

    /** `TryUpdate`: replaces the represented trie by its update; on a missing node nothing changes. */
    method TryUpdate(key: seq<Byte>, value: seq<Byte>) returns (r: R.Outcome<()>)
      requires Callable()
      modifies this`root
      ensures r.Missing? ==> root == old(root) && r.digest !in db && Callable()
      ensures Terminated(KeyToHex(key))
      ensures forall t, full :: old(Holds(t, full)) ==>
                Callable() && if r.Missing? then r.digest in full else Holds(Updated(t, KeyToHex(key), value), full)
    {
      var k := KeybytesToHex(key);
      KeyToHexTerminated(key);
      ghost var before := root;
      var changed := if value != [] then R.TryInsert(db, root, k, Value(value)) else R.TryDelete(db, root, k);
      forall t, full | old(Holds(t, full))
        ensures if changed.Missing? then changed.digest in full
                else R.Represents(full, changed.value.node, Updated(t, k, value))
      {
        if value != [] {
          R.TryInsertSimulates(db, full, before, t, k, Value(value));
        } else {
          R.TryDeleteSimulates(db, full, before, t, k);
        }
      }
      if changed.Missing? {
        r := R.Missing(changed.digest);
      } else {
        root := changed.value.node;
        r := R.Ok(());
      }
      forall t, full | old(Holds(t, full))
        ensures Callable() && (r.Ok? ==> Holds(Updated(t, k, value), full))
      {
        if r.Ok? {
          assert Holds(Updated(t, k, value), full);
          HoldsCallable(Updated(t, k, value), full);
        }
      }
    }

    /** `TryDelete`: the update with an empty value. */
    method TryDelete(key: seq<Byte>) returns (r: R.Outcome<()>)
      requires Callable()
      modifies this`root
      ensures r.Missing? ==> root == old(root) && r.digest !in db && Callable()
      ensures Terminated(KeyToHex(key))
      ensures forall t, full :: old(Holds(t, full)) ==>
                Callable() && if r.Missing? then r.digest in full else Holds(Updated(t, KeyToHex(key), []), full)
    {
      r := TryUpdate(key, []);
    }
  }

  /** The changes as they reach the trie, with hex keys. */
  function HexHistory(changes: seq<(seq<Byte>, seq<Byte>)>): (h: seq<Change>)
    ensures |h| == |changes|
    ensures forall i :: 0 <= i < |h| ==> h[i] == Change(KeyToHex(changes[i].0), changes[i].1)
  {
    seq(|changes|, i requires 0 <= i < |changes| => Change(KeyToHex(changes[i].0), changes[i].1))
  }

  lemma HexHistoryValid(changes: seq<(seq<Byte>, seq<Byte>)>)
    ensures ValidHistory(HexHistory(changes))
  {
    forall i | 0 <= i < |changes|
      ensures Terminated(KeyToHex(changes[i].0))
    {
      KeyToHexTerminated(changes[i].0);
    }
  }

  /** Any sequence of updates and deletions of an empty trie leaves it holding what the history leaves. */
  method Apply(trie: Trie, changes: seq<(seq<Byte>, seq<Byte>)>, ghost full: R.NodeStore) returns (r: R.Outcome<()>)
    requires trie.Holds(Nil, full)
    modifies trie`root
    ensures ValidHistory(HexHistory(changes))
    ensures r.Ok? ==> trie.Holds(Replay(HexHistory(changes)), full)
    ensures r.Missing? ==> r.digest in full && r.digest !in trie.db
  {
    hide Trie.Holds, Trie.Callable, KeyToHex, Insert, Delete, Lookup, Minimal;
    HexHistoryValid(changes);
    trie.HoldsCallable(Nil, full);
    for i := 0 to |changes|
      invariant ValidHistory(HexHistory(changes)[..i])
      invariant trie.Callable() && trie.Holds(Replay(HexHistory(changes)[..i]), full)
    {
      ghost var t, h := Replay(HexHistory(changes)[..i]), HexHistory(changes)[..i + 1];
      assert h[..i] == HexHistory(changes)[..i];
      r := trie.TryUpdate(changes[i].0, changes[i].1);
      if r.Missing? {
        return;
      }
      assert Replay(h) == Updated(t, KeyToHex(changes[i].0), changes[i].1);
    }
    assert HexHistory(changes)[..|changes|] == HexHistory(changes);
    r := R.Ok(());
  }

  /** What the last change to a key left there, in terms of the key bytes. */
  ghost function LastValue(changes: seq<(seq<Byte>, seq<Byte>)>, key: seq<Byte>): (v: Option<seq<Byte>>)
  {
    if changes == [] then None
    else
      var n := |changes| - 1;
      if changes[n].0 == key then (if changes[n].1 == [] then None else Some(changes[n].1))
      else LastValue(changes[..n], key)
  }

  lemma {:induction false} HexLast(changes: seq<(seq<Byte>, seq<Byte>)>, key: Key)
    ensures var v := LastWrite(HexHistory(changes), key);
            (forall b :: KeyToHex(b) == key ==> v == LastValue(changes, b)) &&
            ((forall b :: KeyToHex(b) != key) ==> v == None)
  {
    if changes != [] {
      var n := |changes| - 1;
      assert HexHistory(changes)[..n] == HexHistory(changes[..n]);
      HexLast(changes[..n], key);
      forall b | KeyToHex(b) == key
        ensures LastWrite(HexHistory(changes), key) == LastValue(changes, b)
      {
        if KeyToHex(changes[n].0) == key {
          KeyToHexInjective(changes[n].0, b);
        }
      }
    }
    hide KeyToHex;
  }

  /** Histories that leave the same value under every key build the same trie. */
  lemma SameOutcome(changes: seq<(seq<Byte>, seq<Byte>)>, changes': seq<(seq<Byte>, seq<Byte>)>)
    requires forall key :: LastValue(changes, key) == LastValue(changes', key)
    ensures ValidHistory(HexHistory(changes)) && ValidHistory(HexHistory(changes'))
    ensures Replay(HexHistory(changes)) == Replay(HexHistory(changes'))
  {
    HexHistoryValid(changes);
    HexHistoryValid(changes');
    forall key
      ensures LastWrite(HexHistory(changes), key) == LastWrite(HexHistory(changes'), key)
    {
      HexLast(changes, key);
      HexLast(changes', key);
      if b :| KeyToHex(b) == key {
        assert LastValue(changes, b) == LastValue(changes', b);
      }
    }
    HistoryIndependent(HexHistory(changes), HexHistory(changes'));
    hide *;
  }

  /** Two trie objects that start empty hold the same trie after histories with the same outcome. */
  method ApplyBoth(a: Trie, b: Trie, changes: seq<(seq<Byte>, seq<Byte>)>, changes': seq<(seq<Byte>, seq<Byte>)>,
                   ghost full: R.NodeStore, ghost full': R.NodeStore)
    returns (r: R.Outcome<()>, r': R.Outcome<()>, ghost t: Node)
    requires a != b && a.Holds(Nil, full) && b.Holds(Nil, full')
    requires forall key :: LastValue(changes, key) == LastValue(changes', key)
    modifies a`root, b`root
    ensures r.Ok? && r'.Ok? ==> a.Holds(t, full) && b.Holds(t, full')
    ensures r.Missing? ==> r.digest in full && r.digest !in a.db
    ensures r'.Missing? ==> r'.digest in full' && r'.digest !in b.db
  {
    hide Trie.Holds, Replay, LastValue;
    SameOutcome(changes, changes');
    t := Replay(HexHistory(changes));
    r := Apply(a, changes, full);
    r' := Apply(b, changes', full');
  }
}
