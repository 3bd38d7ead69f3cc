/**
 The trie as the code runs it: parts of it may be hash nodes whose content a
 database supplies on demand, updates report whether anything changed, and a
 missing node is an error.  Every operation is shown to simulate the plain
 functions on the hash-free trie that the loaded part and the database stand for.
 */
module TrieResolve {
  import opened Bytes
  import opened TrieNode
  import opened TrieUpdate

  /** What the database returns for a hash, already decoded. */
  type NodeStore = map<Digest, Node>

  datatype Outcome<+T> = Ok(value: T) | Missing(digest: Digest)

  /** The minimal form with hash nodes standing for unloaded subtries. */
  ghost predicate Shaped(n: Node)
  {
    match n
    case Short(k, v) =>
      k != [] &&
      (if v.Value? then Terminated(k) && NonEmptyValue(v) else Plain(k) && (v.Hash? || (v.Full? && Shaped(v))))
    case Full(c) =>
      |c| == 17 &&
      (c[16].Nil? || NonEmptyValue(c[16])) &&
      (forall i :: 0 <= i < 16 ==> c[i].Nil? || c[i].Hash? || Shaped(c[i])) &&
      AtLeastTwo(c)
    case _ => false
  }

  ghost predicate ShapedStore(db: NodeStore)
  {
    forall h :: h in db ==> Shaped(db[h])
  }

  /** `n` may stand, in memory, where `key` is what is left of a terminated key. */
  ghost predicate Stands(n: Node, key: Key)
  {
    if key == [] then n.Nil? || NonEmptyValue(n) else Terminated(key) && (n.Nil? || n.Hash? || Shaped(n))
  }

  /** `n`, with its hash nodes looked up in `db`, is the hash-free trie `t`. */
  ghost predicate Represents(db: NodeStore, n: Node, t: Node)
    decreases t, if n.Hash? then 1 else 0
  {
    if n.Hash? then n.digest in db && !db[n.digest].Hash? && Represents(db, db[n.digest], t)
    else
      match t
      case Short(k, v) => n.Short? && n.key == k && Represents(db, n.val, v)
      case Full(c) =>
        n.Full? && |n.children| == |c| && forall i :: 0 <= i < |c| ==> Represents(db, n.children[i], c[i])
      case Hash(_) => false
      case _ => n == t
  }

  /** The nodes that can be loaded at present, out of all that a trie is made of. */
  ghost predicate PartOf(db: NodeStore, full: NodeStore)
  {
    forall h :: h in db ==> h in full && db[h] == full[h]
  }

  /* ---- tryGet ---- */

  datatype Got = Got(value: Option<seq<Byte>>, node: Node, resolved: bool)

  /** `tryGet`: the value, and the node with whatever had to be loaded put in place. */
  function TryGet(db: NodeStore, n: Node, key: Key): (r: Outcome<Got>)
    requires Stands(n, key) && ShapedStore(db)
    ensures r.Missing? ==> r.digest !in db
    decreases |key|, if n.Hash? then 1 else 0
  {
    match n
    case Nil => Ok(Got(None, Nil, false))
    case Value(data) => Ok(Got(Some(data), n, false))
    case Short(k, v) =>
      if !(k <= key) then Ok(Got(None, n, false))
      else
        StandsVal(k, v, key);
        (match TryGet(db, v, key[|k|..])
         case Missing(h) => Missing(h)
         case Ok(g) => Ok(Got(g.value, if g.resolved then Short(k, g.node) else n, g.resolved)))
    case Full(c) =>
      StandsChild(c, key);
      (match TryGet(db, c[key[0]], key[1..])
       case Missing(h) => Missing(h)
       case Ok(g) => Ok(Got(g.value, if g.resolved then Full(c[key[0] := g.node]) else n, g.resolved)))
    case Hash(h) =>
      if h !in db then Missing(h)
      else
        match TryGet(db, db[h], key)
        case Missing(h') => Missing(h')
        case Ok(g) => Ok(Got(g.value, g.node, true))
  }

  lemma StandsVal(k: Key, v: Node, key: Key)
    requires Shaped(Short(k, v)) && Terminated(key) && k <= key
    ensures Stands(v, key[|k|..])
    ensures v.Value? <==> k == key
  {
    if v.Value? {
      TerminatedPrefix(k, key);
    } else if |k| < |key| {
      TerminatedSuffix(key, |k|);
    }
  }

  lemma StandsChild(c: seq<Node>, key: Key)
    requires Shaped(Full(c)) && Terminated(key)
    ensures Stands(c[key[0]], key[1..])
  {
    if |key| > 1 {
      TerminatedSuffix(key, 1);
    }
  }

  /** As `PartBefore`, for a short node in memory. */
  lemma PartInMemory(key: Key, k: Key, v: Node)
    requires Terminated(key) && Shaped(Short(k, v))
    ensures PrefixLen(key, k) == |k| <==> k <= key
    ensures PrefixLen(key, k) < |k| ==> PrefixLen(key, k) < |key|
  {
    var m := PrefixLen(key, k);
    if 0 < m < |k| {
      assert key[m - 1] == key[..m][m - 1] == k[..m][m - 1] == k[m - 1];
    }
    if m == |k| {
      assert k[..m] == k;
    }
  }

  /**
   Reading finds exactly what the represented trie holds, or needs a node of it that
   cannot be loaded; loading changes nothing that the trie stands for.
   */
  lemma {:induction false} TryGetSimulates(db: NodeStore, full: NodeStore, n: Node, t: Node, key: Key)
    requires Stands(n, key) && ShapedStore(db) && PartOf(db, full)
    requires Represents(full, n, t)
    ensures var r := TryGet(db, n, key);
            if r.Missing? then r.digest in full
            else r.value.value == Lookup(t, key) && Represents(full, r.value.node, t)
    decreases |key|, if n.Hash? then 1 else 0
  {
    match n
    case Nil =>
    case Value(_) =>
    case Short(k, v) =>
      if k <= key {
        StandsVal(k, v, key);
        TryGetSimulates(db, full, v, t.val, key[|k|..]);
      }
    case Full(c) =>
      StandsChild(c, key);
      TryGetSimulates(db, full, c[key[0]], t.children[key[0]], key[1..]);
    case Hash(h) =>
      if h in db {
        TryGetSimulates(db, full, db[h], t, key);
      }
  }

  /* ---- insert ---- */

  datatype Changed = Changed(dirty: bool, node: Node)

  /** `insert`: the dirty bit is false when the key already held this very value. */
  function TryInsert(db: NodeStore, n: Node, key: Key, value: Node): (r: Outcome<Changed>)
    requires Stands(n, key) && ShapedStore(db)
    ensures r.Missing? ==> r.digest !in db
    decreases |key|, if n.Hash? then 1 else 0
  {
    if key == [] then Ok(Changed(n != value, value))
    else
      match n
      case Nil => Ok(Changed(true, Short(key, value)))
      case Short(k, v) =>
        PartInMemory(key, k, v);
        var m := PrefixLen(key, k);
        if m == |k| then
          StandsVal(k, v, key);
          (match TryInsert(db, v, key[m..], value)
           case Missing(h) => Missing(h)
           case Ok(r) => Ok(if r.dirty then Changed(true, Short(k, r.node)) else Changed(false, n)))
        else
          Ok(Changed(true, Split(k, v, key, m, value)))
      case Full(c) =>
        StandsChild(c, key);
        (match TryInsert(db, c[key[0]], key[1..], value)
         case Missing(h) => Missing(h)
         case Ok(r) => Ok(if r.dirty then Changed(true, Full(c[key[0] := r.node])) else Changed(false, n)))
      case Hash(h) =>
        if h !in db then Missing(h)
        else
          match TryInsert(db, db[h], key, value)
          case Missing(h') => Missing(h')
          case Ok(r) => Ok(if r.dirty then r else Changed(false, db[h]))
  }

  lemma RepresentsSplit(db: NodeStore, k: Key, v: Node, v': Node, key: Key, m: nat, value: Node)
    requires m < |k| && m < |key| && value.Value?
    requires Represents(db, v, v')
    ensures Represents(db, Split(k, v, key, m, value), Split(k, v', key, m, value))
  {
    RepresentsAttach(db, k[m + 1..], v, v');
    RepresentsAttach(db, key[m + 1..], value, value);
    RepresentsEmpty(db);
    RepresentsChild(db, EMPTY_CHILDREN, EMPTY_CHILDREN, k[m], Attach(k[m + 1..], v), Attach(k[m + 1..], v'));
    hide Attach;
    RepresentsChild(db, EMPTY_CHILDREN[k[m] := Attach(k[m + 1..], v)], EMPTY_CHILDREN[k[m] := Attach(k[m + 1..], v')],
                    key[m], Attach(key[m + 1..], value), Attach(key[m + 1..], value));
  }

  lemma RepresentsEmpty(db: NodeStore)
    ensures Represents(db, Full(EMPTY_CHILDREN), Full(EMPTY_CHILDREN))
  {
    assert Represents(db, Nil, Nil);
  }

  lemma RepresentsAttach(db: NodeStore, k: Key, v: Node, v': Node)
    requires Represents(db, v, v')
    ensures Represents(db, Attach(k, v), Attach(k, v'))
  {
  }

  lemma RepresentsChild(db: NodeStore, c: seq<Node>, c': seq<Node>, i: nat, n: Node, t: Node)
    requires Represents(db, Full(c), Full(c')) && i < |c|
    requires Represents(db, n, t)
    ensures Represents(db, Full(c[i := n]), Full(c'[i := t]))
  {
  }

  /** Insertion with resolution simulates plain insertion; a clean result means nothing changed. */
  lemma {:induction false} TryInsertSimulates(db: NodeStore, full: NodeStore, n: Node, t: Node, key: Key, value: Node)
    requires Stands(n, key) && ShapedStore(db) && PartOf(db, full) && Fits(t, key)
    requires Represents(full, n, t) && NonEmptyValue(value)
    ensures var r := TryInsert(db, n, key, value);
            if r.Missing? then r.digest in full
            else
              Represents(full, r.value.node, Insert(t, key, value)) && (r.value.dirty <==> Insert(t, key, value) != t)
    decreases |key|, if n.Hash? then 1 else 0
  {
    if n.Hash? {
      if n.digest in db {
        TryInsertSimulates(db, full, db[n.digest], t, key, value);
      }
    } else if key != [] {
      match n
      case Nil =>
      case Short(k, v) =>
        PartBefore(key, k, t.val);
        PartInMemory(key, k, v);
        var m := PrefixLen(key, k);
        if m == |k| {
          StandsVal(k, v, key);
          FitsVal(k, t.val, key);
          TryInsertSimulates(db, full, v, t.val, key[m..], value);
        } else {
          RepresentsSplit(full, k, v, t.val, key, m, value);
          assert m == 0 || |key[..m]| < |k|;
        }
      case Full(c) =>
        StandsChild(c, key);
        FitsChild(t.children, key);
        var i := key[0];
        TryInsertSimulates(db, full, c[i], t.children[i], key[1..], value);
        var r := TryInsert(db, c[i], key[1..], value);
        if r.Ok? {
          RepresentsChild(full, c, t.children, i, r.value.node, Insert(t.children[i], key[1..], value));
        }
        var c' := t.children[i := Insert(t.children[i], key[1..], value)];
        assert c'[i] == Insert(t.children[i], key[1..], value);
        assert c' == t.children <==> c'[i] == t.children[i];
    }
  }

  /* ---- delete ---- */

  /** `delete`: the dirty bit is false when the key was absent. */
  function TryDelete(db: NodeStore, n: Node, key: Key): (r: Outcome<Changed>)
    requires Stands(n, key) && ShapedStore(db)
    ensures r.Missing? ==> r.digest !in db
    ensures r.Ok? && r.value.dirty ==> !r.value.node.Hash?
    decreases |key|, if n.Hash? then 1 else 0
  {
    match n
    case Nil => Ok(Changed(false, Nil))
    case Value(_) => Ok(Changed(true, Nil))
    case Short(k, v) =>
      if !(k <= key) then Ok(Changed(false, n))
      else if k == key then Ok(Changed(true, Nil))
      else
        StandsVal(k, v, key);
        (match TryDelete(db, v, key[|k|..])
         case Missing(h) => Missing(h)
         case Ok(r) => Ok(if r.dirty then Changed(true, Prepend(k, r.node)) else Changed(false, n)))
    case Full(c) =>
      StandsChild(c, key);
      (match TryDelete(db, c[key[0]], key[1..])
       case Missing(h) => Missing(h)
       case Ok(r) => if r.dirty then TryReduce(db, c[key[0] := r.node]) else Ok(Changed(false, n)))
    case Hash(h) =>
      if h !in db then Missing(h)
      else
        match TryDelete(db, db[h], key)
        case Missing(h') => Missing(h')
        case Ok(r) => Ok(if r.dirty then r else Changed(false, db[h]))
  }

  /** A full node with one child left: the child is loaded just to see whether it is a short node. */
  function TryReduce(db: NodeStore, c: seq<Node>): (r: Outcome<Changed>)
    requires |c| == 17 && ShapedStore(db)
    ensures r.Missing? ==> r.digest !in db
    ensures r.Ok? ==> r.value.dirty && !r.value.node.Hash?
  {
    match Remaining(c)
    case None => Ok(Changed(true, Full(c)))
    case Some(pos) =>
      if pos == TERMINATOR then Ok(Changed(true, Short([TERMINATOR], c[pos])))
      else if c[pos].Hash? && c[pos].digest !in db then Missing(c[pos].digest)
      else
        var child := if c[pos].Hash? then db[c[pos].digest] else c[pos];
        Ok(Changed(true, if child.Short? then Short([pos] + child.key, child.val) else Short([pos], c[pos])))
  }

  lemma RepresentsNil(db: NodeStore, n: Node, t: Node)
    requires ShapedStore(db) && Represents(db, n, t)
    ensures n.Nil? <==> t.Nil?
    ensures n.Value? <==> t.Value?
  {
    if n.Hash? {
      assert Shaped(db[n.digest]);
    }
  }

  lemma RepresentsRemaining(db: NodeStore, c: seq<Node>, c': seq<Node>)
    requires ShapedStore(db) && |c| == |c'| == 17
    requires forall i :: 0 <= i < 17 ==> Represents(db, c[i], c'[i])
    ensures Remaining(c) == Remaining(c')
  {
    forall i | 0 <= i < 17
      ensures c[i].Nil? <==> c'[i].Nil?
    {
      RepresentsNil(db, c[i], c'[i]);
    }
    forall i | 0 <= i < 17
      ensures OnlyAt(c, i) <==> OnlyAt(c', i)
    {
    }
  }

  /** Reducing in memory simulates reducing the represented node. */
  lemma TryReduceSimulates(db: NodeStore, full: NodeStore, c: seq<Node>, c': seq<Node>)
    requires ShapedStore(db) && ShapedStore(full) && PartOf(db, full) && |c| == |c'| == 17
    requires forall i :: 0 <= i < 17 ==> Represents(full, c[i], c'[i])
    ensures var r := TryReduce(db, c);
            if r.Missing? then r.digest in full else Represents(full, r.value.node, Reduce(c'))
  {
    RepresentsRemaining(full, c, c');
    match Remaining(c)
    case None =>
    case Some(pos) =>
      assert Represents(full, c[pos], c'[pos]);
      if !c[pos].Hash? || c[pos].digest in db {
        var child := if c[pos].Hash? then db[c[pos].digest] else c[pos];
        assert child.Short? <==> c'[pos].Short?;
      }
  }

  lemma RepresentsPrepend(db: NodeStore, k: Key, n: Node, t: Node)
    requires Represents(db, n, t) && !n.Hash?
    ensures Represents(db, Prepend(k, n), Prepend(k, t))
  {
  }

  /** Deletion with resolution simulates plain deletion; a clean result means the key was absent. */
  lemma {:induction false} TryDeleteSimulates(db: NodeStore, full: NodeStore, n: Node, t: Node, key: Key)
    requires Stands(n, key) && ShapedStore(db) && ShapedStore(full) && PartOf(db, full) && Fits(t, key)
    requires Represents(full, n, t)
    ensures var r := TryDelete(db, n, key);
            if r.Missing? then r.digest in full
            else
              Represents(full, r.value.node, Delete(t, key)) && (r.value.dirty <==> Lookup(t, key).Some?) &&
              (!r.value.dirty ==> Delete(t, key) == t)
    decreases |key|, if n.Hash? then 1 else 0
  {
    match n
    case Nil =>
    case Value(_) =>
    case Short(k, v) =>
      if k <= key {
        FitsVal(k, t.val, key);
        if k != key {
          StandsVal(k, v, key);
          TryDeleteSimulates(db, full, v, t.val, key[|k|..]);
          var r := TryDelete(db, v, key[|k|..]);
          if r.Ok? && r.value.dirty {
            RepresentsPrepend(full, k, r.value.node, Delete(t.val, key[|k|..]));
          }
        }
      }
    case Full(c) =>
      StandsChild(c, key);
      FitsChild(t.children, key);
      TryDeleteChild(db, full, c, t.children, key);
    case Hash(h) =>
      if h in db {
        TryDeleteSimulates(db, full, db[h], t, key);
      }
  }

  lemma {:induction false} TryDeleteChild(db: NodeStore, full: NodeStore, c: seq<Node>, c': seq<Node>, key: Key)
    requires ShapedStore(db) && ShapedStore(full) && PartOf(db, full)
    requires Terminated(key) && Shaped(Full(c)) && Minimal(Full(c'))
    requires Represents(full, Full(c), Full(c'))
    requires Stands(c[key[0]], key[1..]) && Fits(c'[key[0]], key[1..])
    ensures var r := TryDelete(db, Full(c), key);
            if r.Missing? then r.digest in full
            else
              Represents(full, r.value.node, Delete(Full(c'), key)) &&
              (r.value.dirty <==> Lookup(Full(c'), key).Some?) &&
              (!r.value.dirty ==> Delete(Full(c'), key) == Full(c'))
    decreases |key|, 0, 0
  {
    var i := key[0];
    TryDeleteSimulates(db, full, c[i], c'[i], key[1..]);
    var r := TryDelete(db, c[i], key[1..]);
    if r.Missing? {
    } else if r.value.dirty {
      TryReduceSimulates(db, full, c[i := r.value.node], c'[i := Delete(c'[i], key[1..])]);
    } else {
      assert c'[i := c'[i]] == c';
      assert Delete(Full(c'), key) == Reduce(c');
      NothingRemains(c');
    }
  }

  lemma NothingRemains(c: seq<Node>)
    requires Minimal(Full(c))
    ensures Reduce(c) == Full(c)
  {
    var i, j :| 0 <= i < j < |c| && !c[i].Nil? && !c[j].Nil?;
    assert forall k :: 0 <= k < 17 ==> !OnlyAt(c, k);
  }
}
