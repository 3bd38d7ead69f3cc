/**
 The minimal form is unique: the map a trie holds determines the trie.  So the
 order in which keys were inserted, overwritten and deleted leaves no trace.
 */
module TrieCanonical {
  import opened Bytes
  import opened TrieNode
  import opened TrieUpdate

  /** Both tries hold the same map. */
  ghost predicate SameMap(a: Node, b: Node)
  {
    forall key :: Terminated(key) ==> Lookup(a, key) == Lookup(b, key)
  }

  /** Some key under which a minimal trie holds a value. */
  ghost function SomeKey(t: Node): (key: Key)
    requires Minimal(t)
    ensures Terminated(key) && Lookup(t, key).Some?
    decreases t
  {
    match t
    case Short(k, v) =>
      var rest := if v.Value? then [] else SomeKey(v);
      assert k + rest == k || (k + rest)[|k|..] == rest;
      k + rest
    case Full(c) =>
      var i, j :| 0 <= i < j < |c| && !c[i].Nil? && !c[j].Nil?;
      KeyThrough(c, i)
  }

  /** Some key held below child `i` of a full node. */
  ghost function KeyThrough(c: seq<Node>, i: int): (key: Key)
    requires Minimal(Full(c)) && 0 <= i < 17 && !c[i].Nil?
    ensures Terminated(key) && key[0] == i && Lookup(Full(c), key).Some?
    decreases Full(c), 0
  {
    var rest := if i == 16 then [] else assert c[i] < Full(c); SomeKey(c[i]);
    var key := [i] + rest;
    assert key[1..] == rest;
    key
  }

  ghost function KeyBelow(k: Key, v: Node, i: int): (key: Key)
    requires Minimal(Short(k, v)) && v.Full? && Minimal(v) && 0 <= i < 17 && !v.children[i].Nil?
    ensures Terminated(key) && |k| < |key| && key[|k|] == i && Lookup(Short(k, v), key).Some?
  {
    var key := k + KeyThrough(v.children, i);
    assert key[|k|..] == KeyThrough(v.children, i);
    key
  }

  /** A short node with a full child cannot hold only keys that start with something longer than its own key. */
  lemma KeyNotLonger(k: Key, v: Node, other: Key)
    requires Minimal(Short(k, v))
    requires forall key :: Terminated(key) && Lookup(Short(k, v), key).Some? ==> other <= key
    ensures |other| <= |k|
  {
    if v.Value? {
      assert k[|k|..] == [];
      assert Lookup(Short(k, v), k).Some?;
    } else {
      var c := v.children;
      var i, j :| 0 <= i < j < |c| && !c[i].Nil? && !c[j].Nil?;
      var a, b := KeyBelow(k, v, i), KeyBelow(k, v, j);
      if |other| > |k| {
        assert false;
      }
    }
  }

  lemma SameShortKey(k: Key, v: Node, k': Key, v': Node)
    requires Minimal(Short(k, v)) && Minimal(Short(k', v'))
    requires SameMap(Short(k, v), Short(k', v'))
    ensures k == k'
  {
    KeyNotLonger(k, v, k');
    KeyNotLonger(k', v', k);
    var key := SomeKey(Short(k, v));
    assert Lookup(Short(k', v'), key).Some?;
    assert k <= key && k' <= key;
  }

  lemma SameShortVal(k: Key, v: Node, v': Node)
    requires Minimal(Short(k, v)) && Minimal(Short(k, v'))
    requires SameMap(Short(k, v), Short(k, v'))
    ensures v.Value? ==> v == v'
    ensures !v.Value? ==> v'.Full? && SameMap(v, v')
  {
    if v.Value? {
      assert k[|k|..] == [];
      assert Lookup(Short(k, v), k) == Lookup(Short(k, v'), k);
    } else {
      forall key | Terminated(key)
        ensures Lookup(v, key) == Lookup(v', key)
      {
        var long := k + key;
        assert long[|k|..] == key;
        assert Terminated(long);
        assert Lookup(Short(k, v), long) == Lookup(Short(k, v'), long);
      }
    }
  }

  lemma SameChild(c: seq<Node>, c': seq<Node>, i: int)
    requires Minimal(Full(c)) && Minimal(Full(c')) && 0 <= i < 17
    requires SameMap(Full(c), Full(c'))
    ensures i == 16 ==> c[i] == c'[i]
    ensures i < 16 ==> SameMap(c[i], c'[i])
  {
    if i == 16 {
      assert Lookup(Full(c), [16]) == Lookup(Full(c'), [16]);
    } else {
      forall key | Terminated(key)
        ensures Lookup(c[i], key) == Lookup(c'[i], key)
      {
        var long := [i] + key;
        assert long[1..] == key;
        assert Terminated(long);
        assert Lookup(Full(c), long) == Lookup(Full(c'), long);
      }
    }
  }

  lemma ShortIsNotFull(k: Key, v: Node, c: seq<Node>)
    requires Minimal(Short(k, v)) && Minimal(Full(c))
    ensures !SameMap(Short(k, v), Full(c))
  {
    var i, j :| 0 <= i < j < |c| && !c[i].Nil? && !c[j].Nil?;
    var a, b := KeyThrough(c, i), KeyThrough(c, j);
    assert a[0] != b[0];
    assert k <= a ==> k[0] == a[0];
    assert k <= b ==> k[0] == b[0];
  }

  lemma NilIsNotMinimal(t: Node)
    requires Minimal(t)
    ensures !SameMap(Nil, t)
  {
    var key := SomeKey(t);
    assert Lookup(Nil, key).None?;
  }

  /** Two minimal tries that hold the same map are the same trie. */
  lemma {:induction false} Canonical(a: Node, b: Node)
    requires Proper(a) && Proper(b) && SameMap(a, b)
    ensures a == b
    decreases a
  {
    if a.Nil? || b.Nil? {
      if !a.Nil? {
        NilIsNotMinimal(a);
      } else if !b.Nil? {
        NilIsNotMinimal(b);
      }
    } else if a.Short? && b.Short? {
      SameShortKey(a.key, a.val, b.key, b.val);
      SameShortVal(a.key, a.val, b.val);
      if !a.val.Value? {
        Canonical(a.val, b.val);
      }
    } else if a.Full? && b.Full? {
      forall i | 0 <= i < 17
        ensures a.children[i] == b.children[i]
      {
        SameChild(a.children, b.children, i);
        if i < 16 {
          Canonical(a.children[i], b.children[i]);
        }
      }
      assert a.children == b.children;
    } else if a.Short? {
      ShortIsNotFull(a.key, a.val, b.children);
    } else {
      ShortIsNotFull(b.key, b.val, a.children);
    }
  }

  /* ---- Histories ---- */

  /** One `TryUpdate`: an empty value deletes. */
  datatype Change = Change(key: Key, value: seq<Byte>)

  ghost predicate ValidHistory(h: seq<Change>)
  {
    forall i :: 0 <= i < |h| ==> Terminated(h[i].key)
  }

  /** The trie after the changes of `h`, starting from the empty trie. */
  ghost function Replay(h: seq<Change>): (t: Node)
    requires ValidHistory(h)
    ensures Proper(t)
  {
    if h == [] then Nil
    else
      var last := h[|h| - 1];
      var t := Replay(h[..|h| - 1]);
      if last.value == [] then
        DeleteMinimal(t, last.key);
        Delete(t, last.key)
      else
        InsertMinimal(t, last.key, Value(last.value));
        Insert(t, last.key, Value(last.value))
  }

  /** What the last change to `key` left there; no trie is involved. */
  ghost function LastWrite(h: seq<Change>, key: Key): (r: Option<seq<Byte>>)
  {
    if h == [] then None
    else
      var last := h[|h| - 1];
      if last.key == key then (if last.value == [] then None else Some(last.value))
      else LastWrite(h[..|h| - 1], key)
  }

  /** After any history a trie reads back, for every key, the last value written to it. */
  lemma {:induction false} ReplayReads(h: seq<Change>, key: Key)
    requires ValidHistory(h) && Terminated(key)
    ensures Lookup(Replay(h), key) == LastWrite(h, key)
  {
    if h != [] {
      var last := h[|h| - 1];
      var t := Replay(h[..|h| - 1]);
      ReplayReads(h[..|h| - 1], key);
      if last.value == [] {
        LookupDelete(t, last.key, key);
      } else {
        LookupInsert(t, last.key, Value(last.value), key);
      }
    }
  }

  /** History independence: histories with the same outcome build the same trie. */
  lemma HistoryIndependent(h: seq<Change>, h': seq<Change>)
    requires ValidHistory(h) && ValidHistory(h')
    requires forall key :: Terminated(key) ==> LastWrite(h, key) == LastWrite(h', key)
    ensures Replay(h) == Replay(h')
  {
    forall key | Terminated(key)
      ensures Lookup(Replay(h), key) == Lookup(Replay(h'), key)
    {
      ReplayReads(h, key);
      ReplayReads(h', key);
    }
    Canonical(Replay(h), Replay(h'));
  }
}
