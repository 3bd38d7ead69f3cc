/**
 The node iterator: a stack of nodes with the child each has got to, which can stop
 and go on at any point.  What is left to visit is a suffix of the trie's traversal.
 */
module TrieIterator {
  import opened Bytes
  import opened TrieNode
  import opened TrieResolve
  import opened TrieOrder
  import opened HexKeys

  /** A node on the way to the current one, the last child visited, and the length of its parent's path. */
  datatype State = State(node: Node, index: int, pathlen: nat)

  datatype Err = NoErr | End | SeekFailed(start: seq<Byte>, digest: Digest) | MissingNode(digest: Digest)

  /** What comes next: nothing, a node that cannot be loaded, or a node. */
  datatype Peeked = Finished | Fault(digest: Digest) | Found(node: Node, path: Key)

  /** The stack stands for nodes of the trie. */
  ghost predicate Linked(db: NodeStore, stack: seq<State>, tries: seq<Node>, path: Key)
    decreases |stack|
  {
    |stack| == |tries| &&
    if stack == [] then path == []
    else
      var m := |stack| - 1;
      StandsFor(db, stack[m].node, tries[m]) && stack[m].index >= -1 && stack[m].pathlen <= |path| &&
      Linked(db, stack[..m], tries[..m], path[..stack[m].pathlen])
  }

  /** A loaded node of the trie. */
  ghost predicate StandsFor(db: NodeStore, n: Node, t: Node)
  {
    Placed(t) && !n.Hash? && Represents(db, n, t)
  }

  /** What is left to visit from the nodes on the stack, innermost first. */
  ghost function Remaining(stack: seq<State>, tries: seq<Node>, path: Key): (s: seq<Visit>)
    decreases |stack|
  {
    if stack == [] || |tries| != |stack| || stack[|stack| - 1].pathlen > |path| then []
    else
      var m := |stack| - 1;
      Below(tries[m], path, stack[m].index) + Remaining(stack[..m], tries[..m], path[..stack[m].pathlen])
  }

  function Bumped(stack: seq<State>): (stack': seq<State>)
    requires stack != []
  {
    stack[|stack| - 1 := stack[|stack| - 1].(index := stack[|stack| - 1].index + 1)]
  }

  /* ---- nextChild ---- */

  datatype Child = NoChild | Child(node: Node, step: Key, index: int)

  /** The next child of a node, the nibbles that lead to it, and the index to be kept until it is visited. */
  method NextChild(ghost db: NodeStore, n: Node, index: int, ghost t: Node, ghost p: Key)
    returns (c: Child, ghost ct: Node)
    requires ShapedStore(db) && StandsFor(db, n, t) && index >= -1
    ensures c.NoChild? ==> Below(t, p, index) == []
    ensures c.Child? ==>
              c.index >= -1 && Placed(ct) && Represents(db, c.node, ct) &&
              Below(t, p, c.index) == Below(t, p, index) &&
              Below(t, p, index) == Visits(ct, p + c.step) + Below(t, p, c.index + 1)
  {
    ct := Nil;
    match n {
      case Full(children) =>
        var i := index + 1;
        while i < 17
          invariant index < i && (i <= 17 || i == index + 1)
          invariant i <= 17 ==> FromChild(t.children, p, index + 1) == FromChild(t.children, p, i)
        {
          RepresentsNil(db, children[i], t.children[i]);
          if !children[i].Nil? {
            ct := t.children[i];
            return Child(children[i], [i], i - 1), ct;
          }
          i := i + 1;
        }
        return NoChild, ct;
      case Short(k, v) =>
        if index < 0 {
          ct := t.val;
          return Child(v, k, index), ct;
        }
        return NoChild, ct;
      case _ =>
        return NoChild, ct;
    }
  }

  /** Before anything is visited the whole traversal is left. */
  ghost function LeftOf(trie: Node, stack: seq<State>, tries: seq<Node>, path: Key): (s: seq<Visit>)
  {
    if stack == [] then Visits(trie, []) else Remaining(stack, tries, path)
  }

  lemma LinkedTop(db: NodeStore, stack: seq<State>, tries: seq<Node>, path: Key)
    requires Linked(db, stack, tries, path) && stack != []
    ensures var m := |stack| - 1;
            |tries| == |stack| && StandsFor(db, stack[m].node, tries[m]) && stack[m].index >= -1 &&
            stack[m].pathlen <= |path| && Linked(db, stack[..m], tries[..m], path[..stack[m].pathlen]) &&
            Remaining(stack, tries, path) ==
            Below(tries[m], path, stack[m].index) + Remaining(stack[..m], tries[..m], path[..stack[m].pathlen])
  {
    hide StandsFor, Below;
  }

  /** Changing how far the innermost node has got. */
  lemma LinkedIndex(db: NodeStore, stack: seq<State>, tries: seq<Node>, path: Key, index: int)
    requires Linked(db, stack, tries, path) && stack != [] && index >= -1
    ensures var m := |stack| - 1;
            var stack' := stack[m := stack[m].(index := index)];
            |tries| == |stack| && stack[m].pathlen <= |path| && Linked(db, stack', tries, path) &&
            Remaining(stack', tries, path) ==
            Below(tries[m], path, index) + Remaining(stack[..m], tries[..m], path[..stack[m].pathlen])
  {
    var m := |stack| - 1;
    var stack' := stack[m := stack[m].(index := index)];
    assert stack'[..m] == stack[..m];
    hide StandsFor, Below;
  }

  /** Entering a child. */
  lemma LinkedPush(db: NodeStore, stack: seq<State>, tries: seq<Node>, path: Key, n: Node, t: Node, step: Key)
    requires Linked(db, stack, tries, path) && StandsFor(db, n, t)
    ensures var stack', tries', path' := stack + [State(n, -1, |path|)], tries + [t], path + step;
            Linked(db, stack', tries', path') &&
            Remaining(stack', tries', path') == Below(t, path', -1) + Remaining(stack, tries, path)
  {
    var stack', tries', path' := stack + [State(n, -1, |path|)], tries + [t], path + step;
    assert stack'[..|stack|] == stack && tries'[..|stack|] == tries && path'[..|path|] == path;
    hide StandsFor, Below;
  }

  /** What the node iterator skips in order to start at `key`: whatever comes first and is before it. */
  ghost function From(s: seq<Visit>, key: Key): (s': seq<Visit>)
  {
    if s != [] && Before(s[0].path, key) then From(s[1..], key) else s
  }

  /** What is left if the current node is kept, or passed over. */
  ghost function Skipped(stack: seq<State>, tries: seq<Node>, path: Key, descend: bool): (s: seq<Visit>)
  {
    if descend || stack == [] || |tries| != |stack| || stack[|stack| - 1].pathlen > |path| then
      Remaining(stack, tries, path)
    else
      var m := |stack| - 1;
      Remaining(stack[..m], tries[..m], path[..stack[m].pathlen])
  }

  /** The stack after moving up, or not at all. */
  ghost predicate Up(stack: seq<State>, path: Key, stack': seq<State>, path': Key)
  {
    |stack'| <= |stack| &&
    (stack' != [] ==>
       stack[|stack| - 1].pathlen <= |path| && stack'[|stack'| - 1].pathlen <= |path'| &&
       if |stack'| == |stack| then path' == path && stack'[|stack'| - 1].pathlen == stack[|stack| - 1].pathlen
       else path' <= path[..stack[|stack| - 1].pathlen])
  }

  class NodeIterator {
    const root: Node
    /** The nodes that can be loaded at present, out of all those that the trie is made of. */
    var db: NodeStore
    ghost const full: NodeStore
    ghost const trie: Node
    var stack: seq<State>
    var path: Key
    var err: Err
    ghost var tries: seq<Node>

    /** `Error`. */
    function Error(): (digest: Option<Digest>)
      reads this
    {
      match err
      case SeekFailed(_, digest) => Some(digest)
      case MissingNode(digest) => Some(digest)
      case _ => None
    }

    ghost predicate Valid()
      reads this
    {
      PartOf(db, full) && ShapedStore(full) && Placed(trie) && !trie.Value? && Represents(full, root, trie) &&
      Linked(full, stack, tries, path) && (err.End? ==> stack == []) &&
      (err.SeekFailed? ==> Seeking(stack, path, Nibbles(err.start)))
    }

    /** What the iterator has not passed yet. */
    ghost function Left(): (s: seq<Visit>)
      reads this
    {
      if err.End? then [] else LeftOf(trie, stack, tries, path)
    }

    /** What the iterator still has to show; a search that has failed is to be taken up again. */
    ghost function Ahead(): (s: seq<Visit>)
      reads this
    {
      if err.SeekFailed? then From(Left(), Nibbles(err.start)) else Left()
    }

    /** `newNodeIterator`: at the first node whose path is not before `start`. */
    constructor (db: NodeStore, root: Node, start: seq<Byte>, ghost full: NodeStore, ghost trie: Node)
      requires PartOf(db, full) && ShapedStore(full) && Placed(trie) && !trie.Value? && Represents(full, root, trie)
      ensures Valid() && this.trie == trie && this.db == db && this.full == full
      ensures Ahead() == From(Visits(trie, []), Nibbles(start)) && !err.MissingNode?
    {
      this.db, this.root, this.trie, this.full := db, root, trie, full;
      stack, path, err, tries := [], [], NoErr, [];
      new;
      err := Seek(start);
    }

    /** `pop`. */
    method Pop()
      requires Valid() && stack != [] && !err.SeekFailed?
      modifies this`stack, this`path, this`tries
      ensures Valid() && |stack| == |old(stack)| - 1 && |old(tries)| == |old(stack)|
      ensures stack == old(stack)[..|stack|] && tries == old(tries)[..|stack|]
      ensures old(stack)[|stack|].pathlen <= |old(path)| && path == old(path)[..old(stack)[|stack|].pathlen]
    {
      hide Below, StandsFor;
      LinkedTop(full, stack, tries, path);
      var m := |stack| - 1;
      path := path[..stack[m].pathlen];
      stack := stack[..m];
      tries := tries[..m];
    }

    /** `peek` after any skipping: moves up until a node has another child. */
    method PeekOnwards() returns (r: Peeked, ghost ct: Node, ghost step: Key)
      requires Valid() && !err.End? && !err.SeekFailed?
      modifies this`stack, this`path, this`tries
      ensures Valid() && Up(old(stack), old(path), stack, path)
      ensures r.Finished? ==> Remaining(old(stack), old(tries), old(path)) == [] && stack == []
      ensures !r.Finished? ==>
                stack != [] && Remaining(stack, tries, path) == Remaining(old(stack), old(tries), old(path))
      ensures r.Fault? ==> r.digest in full && r.digest !in db
      ensures r.Found? ==>
                StandsFor(full, r.node, ct) && r.path == path + step && Linked(full, Bumped(stack), tries, path) &&
                Remaining(stack, tries, path) == Visits(ct, r.path) + Remaining(Bumped(stack), tries, path)
    {
      hide Below, StandsFor, Linked, Remaining, Visits;
      ct, step := Nil, [];
      UpNone(full, stack, tries, path);
      while stack != []
        invariant Valid() && !err.End? && !err.SeekFailed?
        invariant Up(old(stack), old(path), stack, path)
        invariant Remaining(stack, tries, path) == Remaining(old(stack), old(tries), old(path))
        decreases |stack|
      {
        var m := |stack| - 1;
        LinkedTop(full, stack, tries, path);
        ghost var rest := Remaining(stack[..m], tries[..m], path[..stack[m].pathlen]);
        var c;
        c, ct := NextChild(full, stack[m].node, stack[m].index, tries[m], path);
        if c.Child? {
          LinkedIndex(full, stack, tries, path, c.index);
          LinkedIndex(full, stack, tries, path, c.index + 1);
          ghost var bumped := stack[m := stack[m].(index := c.index + 1)];
          stack := stack[m := stack[m].(index := c.index)];
          assert Bumped(stack) == bumped;
          step := c.step;
          AppendRest(Visits(ct, path + step), Below(tries[m], path, c.index + 1), rest);
          Loaded(db, full, c.node, ct);
          if c.node.Hash? && c.node.digest !in db {
            return Fault(c.node.digest), ct, step;
          }
          r := Found(if c.node.Hash? then db[c.node.digest] else c.node, path + c.step);
          return;
        }
        UpPop(full, old(stack), old(path), stack, tries, path);
        Pop();
        assert [] + rest == rest;
      }
      RemainingNone(tries, path);
      r := Finished;
    }

    /** `peek`: the root first; otherwise the next node, passing over what is below the current one if told to. */
    method Peek(descend: bool) returns (r: Peeked, ghost ct: Node, ghost step: Key)
      requires Valid() && !err.End? && !err.SeekFailed?
      modifies this`stack, this`path, this`tries
      ensures Valid() && Up(old(stack), old(path), stack, path)
      ensures old(stack) == [] ==>
                stack == [] && !r.Finished? && (r.Found? ==> r.path == [] && ct == trie && StandsFor(full, r.node, ct))
      ensures old(stack) != [] ==>
                var skipped := Skipped(old(stack), old(tries), old(path), descend);
                (r.Finished? ==> skipped == [] && stack == []) &&
                (!r.Finished? ==> stack != [] && Remaining(stack, tries, path) == skipped) &&
                (r.Found? ==>
                   StandsFor(full, r.node, ct) && r.path == path + step && Linked(full, Bumped(stack), tries, path) &&
                   Remaining(stack, tries, path) == Visits(ct, r.path) + Remaining(Bumped(stack), tries, path)) &&
                (!descend && stack != [] ==> |stack| < |old(stack)|)
      ensures r.Fault? ==> r.digest in full && r.digest !in db
    {
      hide Below, StandsFor, Linked, Remaining, Visits;
      if stack == [] {
        ct, step := trie, [];
        Loaded(db, full, root, trie);
        if root.Hash? && root.digest !in db {
          return Fault(root.digest), ct, step;
        }
        return Found(if root.Hash? then db[root.digest] else root, []), ct, step;
      }
      if !descend {
        UpNone(full, stack, tries, path);
        UpPop(full, stack, path, stack, tries, path);
        Pop();
        ghost var stack1, path1 := stack, path;
        r, ct, step := PeekOnwards();
        UpUp(old(stack), old(path), stack1, path1, stack, path);
      } else {
        r, ct, step := PeekOnwards();
      }
    }

    /** `push`. */
    method Push(r: Peeked, ghost ct: Node, ghost step: Key)
      requires Valid() && !err.End? && !err.SeekFailed? && r.Found? && StandsFor(full, r.node, ct)
      requires if stack == [] then r.path == [] && ct == trie
               else r.path == path + step && Linked(full, Bumped(stack), tries, path)
      modifies this`stack, this`path, this`tries
      ensures Valid() && stack != [] && path == r.path
      ensures stack[|stack| - 1].node == r.node && stack[|stack| - 1].pathlen == |old(path)|
      ensures Remaining(stack, tries, path) ==
              Below(ct, r.path, -1) + if old(stack) == [] then [] else Remaining(Bumped(old(stack)), old(tries), old(path))
    {
      hide Below, StandsFor, Linked, Remaining;
      ghost var before := if stack == [] then [] else Bumped(stack);
      LinkedPush(full, before, tries, path, r.node, ct, if stack == [] then [] else step);
      LinkedSize(full, stack, tries, path);
      RemainingNone(tries, path);
      var pathlen := |path|;
      if stack != [] {
        stack := Bumped(stack);
      }
      assert stack == [] ==> path + [] == r.path;
      stack := stack + [State(r.node, -1, pathlen)];
      path := r.path;
      tries := tries + [ct];
    }

    /** `seek`: moves on until just before the first node that is not before the key. */
    method Seek(start: seq<Byte>) returns (e: Err)
      requires Valid() && err == NoErr && Seeking(stack, path, Nibbles(start))
      modifies this`stack, this`path, this`tries
      ensures Valid()
      ensures e == NoErr ==> LeftOf(trie, stack, tries, path) == From(old(Left()), Nibbles(start))
      ensures e.End? ==> From(old(Left()), Nibbles(start)) == [] && stack == []
      ensures e.SeekFailed? ==>
                e.start == start && e.digest in full && e.digest !in db && Seeking(stack, path, Nibbles(start)) &&
                From(LeftOf(trie, stack, tries, path), Nibbles(start)) == From(old(Left()), Nibbles(start))
      ensures !e.MissingNode?
    {
      hide Below, StandsFor, Linked, Remaining, Visits, Up, Skipped, From, Nibbles, KeyToHex, Seeking, Before, Represents,
           ShapedStore, PartOf, Placed;
      var key := HexStart(start);
      while true
        invariant Valid() && err == NoErr && Seeking(stack, path, key)
        invariant From(LeftOf(trie, stack, tries, path), key) == From(old(Left()), key)
        decreases |LeftOf(trie, stack, tries, path)|
      {
        ghost var stack0, path0 := stack, path;
        var descend := path <= key;
        if stack != [] {
          SkipBefore(full, stack, tries, path, key, descend);
        }
        var r, ct, step := Peek(descend);
        SeekingUp(stack0, path0, stack, path, key, descend);
        ghost var left := LeftOf(trie, stack, tries, path);
        FromHead(left, key);
        if r.Finished? {
          FromHead([], key);
          return End;
        }
        if r.Fault? {
          return SeekFailed(start, r.digest);
        }
        ghost var rest := if stack == [] then [] else Remaining(Bumped(stack), tries, path);
        VisitsSplit(ct, r.path, rest);
        assert left == Visits(ct, r.path) + rest;
        if !Before(r.path, key) {
          return NoErr;
        }
        LinkedSize(full, stack, tries, path);
        SeekingPush(stack, path, r.path, key);
        Push(r, ct, step);
        assert LeftOf(trie, stack, tries, path) == left[1..];
      }
    }

    /** `Next`. */
    method Next(descend: bool) returns (ok: bool, ghost left: seq<Visit>)
      requires Valid()
      modifies this`stack, this`path, this`tries, this`err
      ensures Valid()
      ensures descend ==> left == old(Ahead())
      ensures !descend && old(err.NoErr? || err.MissingNode?) && old(stack) != [] ==>
                left == Skipped(old(stack), old(tries), old(path), false)
      ensures ok ==>
                err == NoErr && left != [] && Ahead() == left[1..] && path == left[0].path &&
                stack != [] && StandsFor(full, stack[|stack| - 1].node, left[0].node)
      ensures !ok ==> !err.NoErr? && (err.End? ==> left == []) && Ahead() == left
      ensures !ok && !err.End? ==> err.digest in full && err.digest !in db
    {
      hide Below, StandsFor, Linked, Remaining, Visits, Up;
      left := Ahead();
      if err.End? {
        return false, left;
      }
      if err.SeekFailed? {
        var start := err.start;
        err := NoErr;
        var e := Seek(start);
        err := e;
        if !err.NoErr? {
          return false, left;
        }
      }
      left := if stack == [] then Left() else Skipped(stack, tries, path, descend);
      var r, ct, step := Peek(descend);
      if r.Finished? {
        err := End;
        return false, left;
      }
      if r.Fault? {
        err := MissingNode(r.digest);
        return false, left;
      }
      err := NoErr;
      ghost var rest := if stack == [] then [] else Remaining(Bumped(stack), tries, path);
      VisitsSplit(ct, r.path, rest);
      assert stack == [] ==> Visits(ct, r.path) + [] == Visits(ct, r.path);
      Push(r, ct, step);
      ok := true;
    }
  }

  /** The path that a search for a key aims at: its nibbles, without the terminator. */
  function Nibbles(start: seq<Byte>): (key: Key)
  {
    KeyToHex(start)[..2 * |start|]
  }

  /** While searching, every node entered but the last one leads towards the key, and the last one is not past it. */
  ghost predicate Seeking(stack: seq<State>, path: Key, key: Key)
  {
    stack != [] ==>
      stack[|stack| - 1].pathlen <= |path| && path[..stack[|stack| - 1].pathlen] <= key &&
      (path <= key || Before(path, key))
  }

  lemma UpNone(db: NodeStore, stack: seq<State>, tries: seq<Node>, path: Key)
    requires Linked(db, stack, tries, path)
    ensures Up(stack, path, stack, path)
  {
  }

  lemma UpPop(db: NodeStore, stack0: seq<State>, path0: Key, stack: seq<State>, tries: seq<Node>, path: Key)
    requires Linked(db, stack, tries, path) && stack != [] && Up(stack0, path0, stack, path)
    ensures Up(stack0, path0, stack[..|stack| - 1], path[..stack[|stack| - 1].pathlen])
  {
  }

  lemma UpUp(stack0: seq<State>, path0: Key, stack1: seq<State>, path1: Key, stack2: seq<State>, path2: Key)
    requires Up(stack0, path0, stack1, path1) && Up(stack1, path1, stack2, path2) && |stack1| < |stack0|
    ensures Up(stack0, path0, stack2, path2)
  {
  }

  lemma LinkedSize(db: NodeStore, stack: seq<State>, tries: seq<Node>, path: Key)
    requires Linked(db, stack, tries, path)
    ensures |tries| == |stack| && (stack == [] ==> path == [])
  {
  }

  lemma AppendRest(a: seq<Visit>, b: seq<Visit>, rest: seq<Visit>)
    ensures (a + b) + rest == a + (b + rest)
  {
  }

  lemma RemainingNone(tries: seq<Node>, path: Key)
    ensures Remaining([], tries, path) == []
  {
  }

  /** `resolve`. */
  lemma Loaded(db: NodeStore, full: NodeStore, n: Node, t: Node)
    requires PartOf(db, full) && ShapedStore(full) && Placed(t) && Represents(full, n, t)
    ensures !n.Hash? ==> StandsFor(full, n, t)
    ensures n.Hash? ==> n.digest in full
    ensures n.Hash? && n.digest in db ==> StandsFor(full, db[n.digest], t)
  {
  }

  lemma VisitsSplit(t: Node, p: Key, rest: seq<Visit>)
    ensures Visits(t, p) + rest == [Visit(p, t)] + (Below(t, p, -1) + rest)
  {
  }

  lemma FromHead(s: seq<Visit>, key: Key)
    ensures From(s, key) == if s != [] && Before(s[0].path, key) then From(s[1..], key) else s
  {
  }

  /** The nibbles that a search compares with. */
  method HexStart(start: seq<Byte>) returns (key: Key)
    ensures key == Nibbles(start)
  {
    key := KeybytesToHex(start);
    key := key[..|key| - 1];
  }

  /** Entering a node that is before the key. */
  lemma SeekingPush(stack: seq<State>, path: Key, path': Key, key: Key)
    requires (stack == [] ==> path == []) && (stack != [] ==> path <= key) && path <= path' && Before(path', key)
    ensures forall s: seq<State> :: s != [] && s[|s| - 1].pathlen == |path| ==> Seeking(s, path', key)
  {
  }

  lemma {:induction false} FromAppend(a: seq<Visit>, b: seq<Visit>, key: Key)
    requires forall i :: 0 <= i < |a| ==> Before(a[i].path, key)
    ensures From(a + b, key) == From(b, key)
  {
    if a == [] {
      assert a + b == b;
    } else {
      FromAppend(a[1..], b, key);
      assert (a + b)[1..] == a[1..] + b;
    }
  }

  /** Below a node that is before the key and does not lead to it everything is before the key. */
  lemma {:induction false} BeforeExtends(a: Key, b: Key, key: Key)
    requires Before(a, key) && !(a <= key) && a <= b
    ensures Before(b, key)
  {
    if a[0] == key[0] {
      assert a == [a[0]] + a[1..] && key == [key[0]] + key[1..];
      BeforeExtends(a[1..], b[1..], key[1..]);
    }
  }

  /** What `seek` passes over without looking is before the key. */
  lemma SkipBefore(db: NodeStore, stack: seq<State>, tries: seq<Node>, path: Key, key: Key, descend: bool)
    requires Linked(db, stack, tries, path) && Seeking(stack, path, key) && (descend <==> path <= key) && stack != []
    ensures var left, skipped := Remaining(stack, tries, path), Skipped(stack, tries, path, descend);
            From(left, key) == From(skipped, key) && |skipped| <= |left|
  {
    if !descend {
      hide Below, StandsFor, Linked;
      LinkedTop(db, stack, tries, path);
      var m := |stack| - 1;
      var under := Below(tries[m], path, stack[m].index);
      BelowExtends(tries[m], path, stack[m].index);
      forall i | 0 <= i < |under|
        ensures Before(under[i].path, key)
      {
        BeforeExtends(path, under[i].path, key);
      }
      FromAppend(under, Skipped(stack, tries, path, descend), key);
    }
  }

  lemma SeekingUp(stack: seq<State>, path: Key, stack': seq<State>, path': Key, key: Key, descend: bool)
    requires Seeking(stack, path, key) && Up(stack, path, stack', path') && (descend <==> path <= key)
    requires stack != [] && stack' != [] ==> |stack'| < |stack| || descend
    ensures Seeking(stack', path', key) && (stack' != [] ==> path' <= key)
  {
  }
}
