/**
 Trie nodes, hex keys and the minimal form.

 A hex key holds one nibble per element and ends with the terminator 16 when it
 leads to a value.  Caching metadata (the node's stored hash and dirty bit) is not
 part of the node here; it never changes what a node contains.
 */
module TrieNode {
  import opened Bytes

  type Nibble = n: int | 0 <= n <= 16
  type Key = seq<Nibble>
  type Digest = d: seq<Byte> | |d| == 32 witness seq(32, _ => 0)

  const TERMINATOR: Nibble := 16

  datatype Node =
    | Nil
    | Value(data: seq<Byte>)
    | Short(key: Key, val: Node)
    | Full(children: seq<Node>)
    | Hash(digest: Digest)

  const EMPTY_CHILDREN: seq<Node> :=
    [Nil, Nil, Nil, Nil, Nil, Nil, Nil, Nil, Nil, Nil, Nil, Nil, Nil, Nil, Nil, Nil, Nil]

  predicate Plain(k: Key)
  {
    forall i :: 0 <= i < |k| ==> k[i] != TERMINATOR
  }

  predicate Terminated(k: Key)
  {
    k != [] && k[|k| - 1] == TERMINATOR && forall i :: 0 <= i < |k| - 1 ==> k[i] != TERMINATOR
  }

  predicate NonEmptyValue(t: Node)
  {
    t.Value? && t.data != []
  }

  /**
   The minimal form: no short node below a short node, no empty short key, at
   least two children per full node, and the terminator exactly above values.
   */
  ghost predicate Minimal(t: Node)
  {
    match t
    case Short(k, v) =>
      k != [] && (if v.Value? then Terminated(k) && NonEmptyValue(v) else Plain(k) && v.Full? && Minimal(v))
    case Full(c) =>
      |c| == 17 &&
      (c[16].Nil? || NonEmptyValue(c[16])) &&
      (forall i :: 0 <= i < 16 ==> c[i].Nil? || Minimal(c[i])) &&
      AtLeastTwo(c)
    case _ => false
  }

  ghost predicate AtLeastTwo(c: seq<Node>)
  {
    exists i, j :: 0 <= i < j < |c| && !c[i].Nil? && !c[j].Nil?
  }

  /** A trie that a root may hold, or a child slot other than the value slot. */
  ghost predicate Proper(t: Node)
  {
    t.Nil? || Minimal(t)
  }

  /** `t` may stand where `key` is what is left of a terminated key. */
  ghost predicate Fits(t: Node, key: Key)
  {
    if key == [] then t.Nil? || NonEmptyValue(t) else Terminated(key) && Proper(t)
  }

  /** The value that the hash-free trie `t` holds under `key`. */
  function Lookup(t: Node, key: Key): (r: Option<seq<Byte>>)
  {
    match t
    case Value(data) => Some(data)
    case Short(k, v) => if k <= key then Lookup(v, key[|k|..]) else None
    case Full(c) => if key != [] && key[0] < |c| then Lookup(c[key[0]], key[1..]) else None
    case _ => None
  }

  /** The length of the longest common prefix. */
  function PrefixLen(a: Key, b: Key): (n: nat)
    ensures n <= |a| && n <= |b| && a[..n] == b[..n]
    ensures n < |a| && n < |b| ==> a[n] != b[n]
  {
    if a == [] || b == [] || a[0] != b[0] then 0
    else
      var n := PrefixLen(a[1..], b[1..]);
      assert a[..n + 1] == [a[0]] + a[1..][..n] && b[..n + 1] == [b[0]] + b[1..][..n];
      n + 1
  }

  /* ---- Facts about terminated keys ---- */

  lemma TerminatedSuffix(key: Key, m: nat)
    requires Terminated(key) && m < |key|
    ensures Terminated(key[m..])
    ensures Plain(key[..m])
  {
  }

  /** No terminated key is a proper prefix of another. */
  lemma TerminatedPrefix(a: Key, b: Key)
    requires Terminated(a) && Terminated(b) && a <= b
    ensures a == b
  {
    assert a[|a| - 1] == b[|a| - 1];
  }

  /** A terminated key and a short node's key part ways before either ends, or the node's key comes first. */
  lemma PartBefore(key: Key, k: Key, v: Node)
    requires Terminated(key) && Minimal(Short(k, v))
    ensures PrefixLen(key, k) == |k| <==> k <= key
    ensures PrefixLen(key, k) < |k| ==> PrefixLen(key, k) < |key|
  {
    var m := PrefixLen(key, k);
    if 0 < m < |k| {
      assert key[m - 1] == key[..m][m - 1] == k[..m][m - 1] == k[m - 1];
    }
    if m == |k| {
      assert k[..m] == k;
    }
  }

  lemma FitsChild(c: seq<Node>, key: Key)
    requires Minimal(Full(c)) && Terminated(key)
    ensures Fits(c[key[0]], key[1..])
  {
    if |key| > 1 {
      TerminatedSuffix(key, 1);
    }
  }

  lemma FitsVal(k: Key, v: Node, key: Key)
    requires Minimal(Short(k, v)) && Terminated(key) && k <= key
    ensures Fits(v, key[|k|..])
    ensures v.Value? <==> k == key
  {
    if v.Value? {
      TerminatedPrefix(k, key);
    } else if |k| < |key| {
      TerminatedSuffix(key, |k|);
    }
  }
}
