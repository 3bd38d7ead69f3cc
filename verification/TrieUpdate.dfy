/**
 Insertion and deletion on hash-free tries, as plain functions, and what they do:
 they update the key/value map that `Lookup` reads and they keep the minimal form.
 */
module TrieUpdate {
  import opened Bytes
  import opened TrieNode

  /** Inserting below nothing: the node itself, or a short node leading to it. */
  function Attach(key: Key, value: Node): (t: Node)
  {
    if key == [] then value else Short(key, value)
  }

  function Insert(t: Node, key: Key, value: Node): (r: Node)
    requires Fits(t, key)
    decreases t
  {
    match t
    case Nil => Attach(key, value)
    case Value(_) => value
    case Short(k, v) =>
      PartBefore(key, k, v);
      var m := PrefixLen(key, k);
      if m == |k| then
        FitsVal(k, v, key);
        Short(k, Insert(v, key[m..], value))
      else
        Split(k, v, key, m, value)
    case Full(c) =>
      FitsChild(c, key);
      Full(c[key[0] := Insert(c[key[0]], key[1..], value)])
  }

  /** A short node and a key that part ways after `m` nibbles: a branch, below what they share. */
  function Split(k: Key, v: Node, key: Key, m: nat, value: Node): (r: Node)
    requires m < |k| && m < |key|
  {
    var branch := Branch(k, v, key, m, value);
    if m == 0 then branch else Short(key[..m], branch)
  }

  function Branch(k: Key, v: Node, key: Key, m: nat, value: Node): (r: Node)
    requires m < |k| && m < |key|
  {
    Full(EMPTY_CHILDREN[k[m] := Attach(k[m + 1..], v)][key[m] := Attach(key[m + 1..], value)])
  }

  function Delete(t: Node, key: Key): (r: Node)
    requires Fits(t, key)
    decreases t
  {
    match t
    case Nil => Nil
    case Value(_) => Nil
    case Short(k, v) =>
      if !(k <= key) then t
      else if k == key then Nil
      else
        FitsVal(k, v, key);
        Prepend(k, Delete(v, key[|k|..]))
    case Full(c) =>
      FitsChild(c, key);
      Reduce(c[key[0] := Delete(c[key[0]], key[1..])])
  }

  /** A short node above `child`, merged with it when it is a short node itself. */
  function Prepend(k: Key, child: Node): (r: Node)
  {
    if child.Short? then Short(k + child.key, child.val) else Short(k, child)
  }

  /** A full node with one child left gives way to a short node. */
  function Reduce(c: seq<Node>): (r: Node)
  {
    match Remaining(c)
    case Some(pos) => if pos < 16 then Prepend([pos], c[pos]) else Short([TERMINATOR], c[pos])
    case None => Full(c)
  }

  /** The one non-nil child of `c`, if there is exactly one. */
  function Remaining(c: seq<Node>): (r: Option<Nibble>)
    ensures r.Some? <==> |c| == 17 && exists i :: 0 <= i < |c| && OnlyAt(c, i)
    ensures r.Some? ==> OnlyAt(c, r.value)
  {
    if i: int :| |c| == 17 && 0 <= i < 17 && OnlyAt(c, i) then Some(i) else None
  }

  predicate OnlyAt(c: seq<Node>, i: int)
  {
    0 <= i < |c| && !c[i].Nil? && forall j :: 0 <= j < |c| && j != i ==> c[j].Nil?
  }

  /** Both keys are what is left of terminated keys at one place in a trie. */
  predicate SameEnd(a: Key, b: Key)
  {
    if a == [] then b == [] else Terminated(a) && Terminated(b)
  }

  lemma SameEndTail(a: Key, b: Key)
    requires Terminated(a) && Terminated(b) && a[0] == b[0]
    ensures SameEnd(a[1..], b[1..])
    ensures a[1..] == b[1..] <==> a == b
  {
    assert a == [a[0]] + a[1..] && b == [b[0]] + b[1..];
  }

  /* ---- Insertion ---- */

  lemma LookupAttach(k: Key, v: Node, key: Key)
    ensures Lookup(Attach(k, v), key) == if k <= key then Lookup(v, key[|k|..]) else None
  {
    assert key[0..] == key;
  }

  /** Prefixes that agree on `m` nibbles and on the next one agree exactly when the tails do. */
  lemma PrefixTail(k: Key, key: Key, m: nat)
    requires m < |k| && m < |key| && k[..m] == key[..m] && k[m] == key[m]
    ensures k <= key <==> k[m + 1..] <= key[m..][1..]
    ensures k <= key ==> key[m..][1..][|k| - m - 1..] == key[|k|..]
  {
    assert key[m..][1..] == key[m + 1..];
    assert k[..m + 1] == key[..m + 1];
    assert k == k[..m + 1] + k[m + 1..] && key == key[..m + 1] + key[m + 1..];
  }

  lemma BranchChild(k: Key, v: Node, key: Key, m: nat, value: Node, rest: Key)
    requires m < |k| && m < |key| && k[m] != key[m] && rest != []
    ensures Lookup(Branch(k, v, key, m, value), rest) ==
            if rest[0] == key[m] then Lookup(Attach(key[m + 1..], value), rest[1..])
            else if rest[0] == k[m] then Lookup(Attach(k[m + 1..], v), rest[1..])
            else None
  {
    hide Attach;
  }

  lemma LookupBranch(k: Key, v: Node, key: Key, m: nat, value: Node, key': Key)
    requires Terminated(key) && Terminated(key') && value.Value?
    requires m < |k| && m < |key| && m < |key'| && k[m] != key[m]
    requires k[..m] == key[..m] == key'[..m]
    ensures Lookup(Branch(k, v, key, m, value), key'[m..]) ==
            if key' == key then Some(value.data) else Lookup(Short(k, v), key')
  {
    hide Branch, Attach;
    var rest := key'[m..];
    BranchChild(k, v, key, m, value, rest);
    if key'[m] == key[m] {
      LookupAttach(key[m + 1..], value, rest[1..]);
      PrefixTail(key, key', m);
      if key <= key' {
        TerminatedPrefix(key, key');
      }
    } else if key'[m] == k[m] {
      LookupAttach(k[m + 1..], v, rest[1..]);
      PrefixTail(k, key', m);
    }
  }

  lemma LookupSplit(k: Key, v: Node, key: Key, m: nat, value: Node, key': Key)
    requires Terminated(key) && Terminated(key') && value.Value?
    requires m < |k| && m < |key| && k[..m] == key[..m] && k[m] != key[m]
    ensures Lookup(Split(k, v, key, m, value), key') ==
            if key' == key then Some(value.data) else Lookup(Short(k, v), key')
  {
    hide Branch;
    if key[..m] <= key' {
      TerminatedSuffix(key, m);
      assert m < |key'|;
      LookupBranch(k, v, key, m, value, key');
      assert m == 0 ==> key'[m..] == key';
    } else {
      assert k[..m] <= k && key[..m] <= key;
    }
  }

  /** Insertion updates the map: the inserted key reads the new value, every other key reads what it read before. */
  lemma {:induction false} LookupInsert(t: Node, key: Key, value: Node, key': Key)
    requires Fits(t, key) && SameEnd(key, key') && value.Value?
    ensures Lookup(Insert(t, key, value), key') == if key' == key then Some(value.data) else Lookup(t, key')
    decreases t
  {
    hide Split, PrefixLen;
    match t
    case Nil =>
      LookupAttach(key, value, key');
      if key != [] && key <= key' {
        TerminatedPrefix(key, key');
      }
    case Value(_) =>
    case Short(k, v) =>
      PartBefore(key, k, v);
      var m := PrefixLen(key, k);
      if m == |k| {
        FitsVal(k, v, key);
        if k <= key' {
          FitsVal(k, v, key');
          assert key == k + key[m..] && key' == k + key'[m..];
          LookupInsert(v, key[m..], value, key'[m..]);
        }
      } else {
        LookupSplit(k, v, key, m, value, key');
      }
    case Full(c) =>
      FitsChild(c, key);
      if key'[0] == key[0] {
        SameEndTail(key, key');
        LookupInsert(c[key[0]], key[1..], value, key'[1..]);
      }
  }

  lemma AttachMinimal(k: Key, v: Node, m: nat)
    requires Minimal(Short(k, v)) && m < |k|
    ensures k[m] != TERMINATOR ==> Minimal(Attach(k[m + 1..], v))
    ensures k[m] == TERMINATOR ==> NonEmptyValue(Attach(k[m + 1..], v))
  {
  }

  lemma SplitMinimal(k: Key, v: Node, key: Key, m: nat, value: Node)
    requires Minimal(Short(k, v)) && Terminated(key) && NonEmptyValue(value)
    requires m < |k| && m < |key| && k[..m] == key[..m] && k[m] != key[m]
    ensures Minimal(Split(k, v, key, m, value))
  {
    AttachMinimal(k, v, m);
    AttachMinimal(key, value, m);
    var branch := Branch(k, v, key, m, value);
    var i, j := if k[m] < key[m] then k[m] else key[m], if k[m] < key[m] then key[m] else k[m];
    assert !branch.children[i].Nil? && !branch.children[j].Nil?;
    assert Minimal(branch);
    TerminatedSuffix(key, m);
  }

  /** Insertion keeps the minimal form, and never turns a full node into anything else. */
  lemma {:induction false} InsertMinimal(t: Node, key: Key, value: Node)
    requires Fits(t, key) && NonEmptyValue(value)
    ensures if key == [] then Insert(t, key, value) == value else Minimal(Insert(t, key, value))
    ensures t.Full? ==> Insert(t, key, value).Full?
    decreases t
  {
    match t
    case Nil =>
    case Value(_) =>
    case Short(k, v) =>
      PartBefore(key, k, v);
      var m := PrefixLen(key, k);
      if m == |k| {
        FitsVal(k, v, key);
        InsertMinimal(v, key[m..], value);
      } else {
        SplitMinimal(k, v, key, m, value);
      }
    case Full(c) =>
      FitsChild(c, key);
      InsertMinimal(c[key[0]], key[1..], value);
      var c' := c[key[0] := Insert(c[key[0]], key[1..], value)];
      var i, j :| 0 <= i < j < |c| && !c[i].Nil? && !c[j].Nil?;
      assert !c'[i].Nil? && !c'[j].Nil?;
  }

  /* ---- Deletion ---- */

  lemma LookupPrepend(k: Key, child: Node, key: Key)
    ensures Lookup(Prepend(k, child), key) == Lookup(Short(k, child), key)
  {
    if child.Short? {
      var j := k + child.key;
      if k <= key {
        assert key == k + key[|k|..];
        assert j <= key <==> child.key <= key[|k|..];
        assert j <= key ==> key[|k|..][|child.key|..] == key[|j|..];
      }
    }
  }

  lemma LookupReduce(c: seq<Node>, key: Key)
    requires |c| == 17 && key != []
    ensures Lookup(Reduce(c), key) == Lookup(Full(c), key)
  {
    var pos := Remaining(c);
    if pos.Some? {
      var p := pos.value;
      LookupPrepend([p], c[p], key);
      assert [p] <= key <==> key[0] == p;
    }
  }

  /** Deletion removes the key from the map and leaves every other key alone. */
  lemma {:induction false} LookupDelete(t: Node, key: Key, key': Key)
    requires Fits(t, key) && SameEnd(key, key')
    ensures Lookup(Delete(t, key), key') == if key' == key then None else Lookup(t, key')
    decreases t
  {
    match t
    case Nil =>
    case Value(_) =>
    case Short(k, v) =>
      if k == key {
        if k <= key' {
          TerminatedPrefix(k, key');
        }
      } else if k <= key {
        FitsVal(k, v, key);
        LookupPrepend(k, Delete(v, key[|k|..]), key');
        if k <= key' {
          FitsVal(k, v, key');
          assert key == k + key[|k|..] && key' == k + key'[|k|..];
          LookupDelete(v, key[|k|..], key'[|k|..]);
        }
      }
    case Full(c) =>
      FitsChild(c, key);
      var c' := c[key[0] := Delete(c[key[0]], key[1..])];
      LookupReduce(c', key');
      if key'[0] == key[0] {
        SameEndTail(key, key');
        LookupDelete(c[key[0]], key[1..], key'[1..]);
      }
  }

  lemma PrependMinimal(k: Key, child: Node)
    requires k != [] && Plain(k) && Minimal(child)
    ensures Minimal(Prepend(k, child))
  {
  }

  /** A full node that has lost at most one child is brought back to minimal form. */
  lemma ReduceMinimal(c: seq<Node>, i: int, child: Node)
    requires Minimal(Full(c)) && 0 <= i < 17
    requires if i == 16 then child.Nil? || NonEmptyValue(child) else Proper(child)
    ensures Minimal(Reduce(c[i := child]))
  {
    var c' := c[i := child];
    var a, b :| 0 <= a < b < |c| && !c[a].Nil? && !c[b].Nil?;
    var other := if a == i then b else a;
    assert !c'[other].Nil?;
    var pos := Remaining(c');
    if pos.Some? {
      var p := pos.value;
      if p < 16 {
        PrependMinimal([p], c'[p]);
      }
    } else if !AtLeastTwo(c') {
      assert forall j :: 0 <= j < 17 && j != other ==> c'[j].Nil? by {
        forall j | 0 <= j < 17 && j != other
          ensures c'[j].Nil?
        {
          assert AtLeastTwo(c') || c'[j].Nil?;
        }
      }
      assert OnlyAt(c', other);
      assert false;
    }
  }

  /** Deletion keeps the minimal form; only a value or a single-entry short node disappears altogether. */
  lemma {:induction false} DeleteMinimal(t: Node, key: Key)
    requires Fits(t, key)
    ensures if key == [] then Delete(t, key).Nil? else Proper(Delete(t, key))
    ensures t.Full? ==> Minimal(Delete(t, key))
    decreases t
  {
    match t
    case Nil =>
    case Value(_) =>
    case Short(k, v) =>
      if k <= key && k != key {
        FitsVal(k, v, key);
        DeleteMinimal(v, key[|k|..]);
        PrependMinimal(k, Delete(v, key[|k|..]));
      }
    case Full(c) =>
      FitsChild(c, key);
      DeleteMinimal(c[key[0]], key[1..]);
      ReduceMinimal(c, key[0], Delete(c[key[0]], key[1..]));
  }
}
