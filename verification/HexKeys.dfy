/**
 The three key encodings of the trie: key bytes, hex nibbles with a terminator, and
 the compact (hex-prefix) form in which short nodes are stored.
 */
module HexKeys {
  import opened Bytes
  import opened TrieNode

  /** The terminated hex form of key bytes: high nibble first. */
  function KeyToHex(str: seq<Byte>): (hex: Key)
    ensures |hex| == 2 * |str| + 1
  {
    if str == [] then [TERMINATOR] else [str[0] / 16, str[0] % 16] + KeyToHex(str[1..])
  }

  lemma {:induction false} KeyToHexTerminated(str: seq<Byte>)
    ensures Terminated(KeyToHex(str))
  {
    if str != [] {
      KeyToHexTerminated(str[1..]);
      var hex, rest := KeyToHex(str), KeyToHex(str[1..]);
      assert forall i :: 2 <= i < |hex| ==> hex[i] == rest[i - 2];
    }
  }

  lemma {:induction false} KeyToHexAt(str: seq<Byte>, i: nat)
    requires i < |str|
    ensures KeyToHex(str)[2 * i] == str[i] / 16 && KeyToHex(str)[2 * i + 1] == str[i] % 16
  {
    if i > 0 {
      KeyToHexAt(str[1..], i - 1);
    }
  }

  lemma KeyToHexLast(str: seq<Byte>)
    ensures KeyToHex(str)[2 * |str|] == TERMINATOR
  {
    KeyToHexTerminated(str);
  }

  /** Different keys have different hex forms. */
  lemma {:induction false} KeyToHexInjective(a: seq<Byte>, b: seq<Byte>)
    requires KeyToHex(a) == KeyToHex(b)
    ensures a == b
  {
    assert |a| == |b|;
    forall i | 0 <= i < |a|
      ensures a[i] == b[i]
    {
      KeyToHexAt(a, i);
      KeyToHexAt(b, i);
    }
  }

  /** Pairs of nibbles as bytes. */
  function Pack(nibbles: Key): (b: seq<Byte>)
    requires Plain(nibbles) && |nibbles| % 2 == 0
    ensures |b| == |nibbles| / 2
  {
    if nibbles == [] then [] else [Pair(nibbles[0], nibbles[1])] + Pack(nibbles[2..])
  }

  function Pair(high: int, low: int): (b: Byte)
    requires 0 <= high < 16 && 0 <= low < 16
  {
    16 * high + low
  }

  /** Packing inverts the hex form. */
  lemma {:induction false} PackHex(nibbles: Key)
    requires Plain(nibbles) && |nibbles| % 2 == 0
    ensures KeyToHex(Pack(nibbles)) == nibbles + [TERMINATOR]
  {
    if nibbles == [] {
    } else {
      var head, rest := [nibbles[0], nibbles[1]], nibbles[2..];
      assert Pack(nibbles) == [Pair(nibbles[0], nibbles[1])] + Pack(rest);
      assert Plain(rest) && nibbles == head + rest;
      hide *;
      PackHex(rest);
      KeyToHexHead(nibbles[0], nibbles[1], Pack(rest));
      Reassociate(head, rest, [TERMINATOR]);
    }
  }

  predicate HasTerm(s: Key)
  {
    s != [] && s[|s| - 1] == TERMINATOR
  }

  /** A hex key without its terminator. */
  function Body(hex: Key): (body: Key)
    requires Plain(hex) || Terminated(hex)
    ensures Plain(body)
    ensures hex == if HasTerm(hex) then body + [TERMINATOR] else body
  {
    if HasTerm(hex) then hex[..|hex| - 1] else hex
  }

  /**
   The hex-prefix form: a flag nibble holding the terminator and the parity, the
   first nibble of an odd key beside it, then the other nibbles in pairs.
   */
  function HexToCompact(hex: Key): (c: seq<Byte>)
    requires Plain(hex) || Terminated(hex)
  {
    var body := Body(hex);
    var odd := |body| % 2;
    var flag := (if HasTerm(hex) then 2 else 0) + odd;
    [Pair(flag, if odd == 1 then body[0] else 0)] + Pack(body[odd..])
  }

  function CompactToHex(compact: seq<Byte>): (hex: Key)
  {
    if compact == [] then [] else Unflag(KeyToHex(compact))
  }

  /** Drops the flag nibble, the padding of an even key, and the terminator of a key without one. */
  function Unflag(base: Key): (hex: Key)
    requires |base| >= 3
  {
    var kept := if base[0] < 2 then base[..|base| - 1] else base;
    kept[2 - base[0] % 2..]
  }

  function FlagOf(hex: Key): (flag: Nibble)
    requires Plain(hex) || Terminated(hex)
  {
    (if HasTerm(hex) then 2 else 0) + |Body(hex)| % 2
  }

  lemma CompactBase(hex: Key, low: Nibble)
    requires Plain(hex) || Terminated(hex)
    requires low == if |Body(hex)| % 2 == 1 then Body(hex)[0] else 0
    ensures KeyToHex(HexToCompact(hex)) == [FlagOf(hex), low] + (Body(hex)[|Body(hex)| % 2..] + [TERMINATOR])
  {
    var body := Body(hex);
    var rest := body[|body| % 2..];
    hide Pack, KeyToHex;
    PackHex(rest);
    assert HexToCompact(hex) == [Pair(FlagOf(hex), low)] + Pack(rest);
    KeyToHexHead(FlagOf(hex), low, Pack(rest));
    hide HexToCompact, FlagOf, Body;
    Reassociate([FlagOf(hex), low], rest, [TERMINATOR]);
  }

  lemma KeyToHexHead(high: Nibble, low: Nibble, str: seq<Byte>)
    requires high < 16 && low < 16
    ensures KeyToHex([Pair(high, low)] + str) == [high, low] + KeyToHex(str)
  {
    var all := [Pair(high, low)] + str;
    assert all[0] == Pair(high, low) && all[1..] == str;
  }

  lemma UnflagBase(hex: Key, low: Nibble)
    requires Plain(hex) || Terminated(hex)
    requires |Body(hex)| % 2 == 1 ==> low == Body(hex)[0]
    ensures Unflag([FlagOf(hex), low] + (Body(hex)[|Body(hex)| % 2..] + [TERMINATOR])) == hex
  {
    hide *;
    var body := Body(hex);
    var odd := |body| % 2;
    FlagCases(hex, odd);
    BodyCases(hex);
    FirstApart(body, odd);
    UnflagParts(FlagOf(hex), low, body[odd..]);
  }

  lemma FlagCases(hex: Key, odd: int)
    requires Plain(hex) || Terminated(hex)
    requires odd == |Body(hex)| % 2
    ensures FlagOf(hex) % 2 == odd && (FlagOf(hex) < 2 <==> !HasTerm(hex))
  {
    hide Body, HasTerm, Plain, Terminated;
  }

  lemma FirstApart(body: Key, odd: int)
    requires 0 <= odd <= |body| && odd <= 1
    ensures body == (if odd == 1 then [body[0]] else []) + body[odd..]
  {
  }

  lemma UnflagParts(flag: Nibble, low: Nibble, rest: Key)
    ensures Unflag([flag, low] + (rest + [TERMINATOR])) ==
            (if flag % 2 == 1 then [low] else []) + rest + (if flag < 2 then [] else [TERMINATOR])
  {
    var base := [flag, low] + (rest + [TERMINATOR]);
    assert base[..|base| - 1] == [flag, low] + rest;
    if flag % 2 == 1 {
      assert base[1..] == [low] + rest + [TERMINATOR];
      assert base[..|base| - 1][1..] == [low] + rest;
    } else {
      assert base[2..] == rest + [TERMINATOR];
      assert base[..|base| - 1][2..] == rest;
    }
  }

  /** A short node's key survives storage. */
  lemma CompactRoundTrip(hex: Key)
    requires Plain(hex) || Terminated(hex)
    ensures CompactToHex(HexToCompact(hex)) == hex
  {
    hide KeyToHex, Unflag, Body, FlagOf;
    var low: Nibble := if |Body(hex)| % 2 == 1 then Body(hex)[0] else 0;
    CompactBase(hex, low);
    UnflagBase(hex, low);
  }

  /** Distinct short-node keys are stored distinctly. */
  lemma CompactInjective(a: Key, b: Key)
    requires Plain(a) || Terminated(a)
    requires Plain(b) || Terminated(b)
    requires HexToCompact(a) == HexToCompact(b)
    ensures a == b
  {
    CompactRoundTrip(a);
    CompactRoundTrip(b);
  }

  /* ---- The loops that compute these ---- */

  /** `keybytesToHex`. */
  method KeybytesToHex(str: seq<Byte>) returns (hex: Key)
    ensures hex == KeyToHex(str)
  {
    var l := |str| * 2 + 1;
    var nibbles := new Nibble[l];
    for i := 0 to |str|
      invariant forall j :: 0 <= j < 2 * i ==> nibbles[j] == KeyToHex(str)[j]
    {
      KeyToHexAt(str, i);
      nibbles[i * 2] := str[i] / 16;
      nibbles[i * 2 + 1] := str[i] % 16;
    }
    nibbles[l - 1] := TERMINATOR;
    KeyToHexLast(str);
    hex := nibbles[..];
  }

  lemma {:induction false} PackAt(nibbles: Key, i: nat)
    requires Plain(nibbles) && |nibbles| % 2 == 0 && 2 * i + 1 < |nibbles|
    ensures Pack(nibbles)[i] == Pair(nibbles[2 * i], nibbles[2 * i + 1])
  {
    if i > 0 {
      PackAt(nibbles[2..], i - 1);
    }
  }

  /** `decodeNibbles`: fills `bytes` from position `at` on. */
  method DecodeNibbles(nibbles: Key, bytes: array<Byte>, at: nat)
    requires Plain(nibbles) && |nibbles| % 2 == 0
    requires at + |nibbles| / 2 <= bytes.Length
    modifies bytes
    ensures bytes[..at] == old(bytes[..at])
    ensures bytes[at..at + |nibbles| / 2] == Pack(nibbles)
  {
    var bi, ni := 0, 0;
    while ni < |nibbles|
      invariant 0 <= ni <= |nibbles| && ni == 2 * bi
      invariant forall j :: 0 <= j < at ==> bytes[j] == old(bytes[j])
      invariant forall j :: 0 <= j < bi ==> bytes[at + j] == Pack(nibbles)[j]
    {
      PackAt(nibbles, bi);
      bytes[at + bi] := Pair(nibbles[ni], nibbles[ni + 1]);
      bi, ni := bi + 1, ni + 2;
    }
  }

  /** `hexToCompact`. */
  method CompactOf(hex: Key) returns (compact: seq<Byte>)
    requires Plain(hex) || Terminated(hex)
    ensures compact == HexToCompact(hex)
  {
    hide *;
    BodyCases(hex);
    var terminator: int, body := 0, hex;
    if HasTerm(hex) {
      terminator, body := 1, hex[..|hex| - 1];
    }
    var buf := new Byte[|body| / 2 + 1];
    var first: int := terminator * 32;
    if |body| % 2 == 1 {
      first := first + 16 + body[0];
      body := body[1..];
    }
    CompactParts(hex, Body(hex), |Body(hex)| / 2, |Body(hex)| % 2, first, body);
    buf[0] := first;
    FillAfterFirst(first, body, buf);
    compact := buf[..];
  }

  lemma BodyCases(hex: Key)
    requires Plain(hex) || Terminated(hex)
    ensures HasTerm(hex) ==> hex != []
    ensures Body(hex) == if HasTerm(hex) then hex[..|hex| - 1] else hex
    ensures hex == Body(hex) + if HasTerm(hex) then [TERMINATOR] else []
    ensures forall i :: 0 <= i < |Body(hex)| ==> Body(hex)[i] < 16
  {
  }

  /** The two parts of a compact key. */
  lemma CompactParts(hex: Key, body: Key, half: nat, odd: nat, first: int, rest: Key)
    requires Plain(hex) || Terminated(hex)
    requires body == Body(hex) && |body| == 2 * half + odd && odd <= 1
    requires first == (if HasTerm(hex) then 32 else 0) + if odd == 1 then 16 + (body[0] as int) else 0
    requires rest == body[odd..]
    ensures 0 <= first < 256 && Plain(rest) && |rest| == 2 * half
    ensures HexToCompact(hex) == [first as Byte] + Pack(rest)
  {
    hide Pack, Body, HasTerm;
    assert Plain(rest) && |rest| == 2 * half;
    hide Plain, Terminated;
    assert |body| % 2 == odd;
    var flag := (if HasTerm(hex) then 2 else 0) + odd;
    assert HexToCompact(hex) == [Pair(flag, if odd == 1 then body[0] else 0)] + Pack(rest);
    hide HexToCompact;
  }

  method FillAfterFirst(first: Byte, rest: Key, buf: array<Byte>)
    requires Plain(rest) && |rest| % 2 == 0 && buf.Length == 1 + |rest| / 2 && buf[0] == first
    modifies buf
    ensures buf[..] == [first] + Pack(rest)
  {
    hide *;
    DecodeNibbles(rest, buf, 1);
    assert buf[..1] == [first];
    assert buf[..] == buf[..1] + buf[1..1 + |rest| / 2];
  }

  /** `hexToKeybytes`; the source panics on keys of odd length. */
  function HexToKeybytes(hex: Key): (r: Option<seq<Byte>>)
    requires Plain(hex) || Terminated(hex)
  {
    var body := Body(hex);
    if |body| % 2 != 0 then None else Some(Pack(body))
  }

  /** Key bytes survive the hex form. */
  lemma HexRoundTrip(str: seq<Byte>)
    ensures Terminated(KeyToHex(str)) && HexToKeybytes(KeyToHex(str)) == Some(str)
  {
    KeyToHexTerminated(str);
    var body := KeyToHex(str)[..2 * |str|];
    PackHex(body);
    assert KeyToHex(str) == body + [TERMINATOR];
    KeyToHexInjective(str, Pack(body));
  }

  /** `prefixLen`. */
  method CommonPrefix(a: Key, b: Key) returns (i: nat)
    ensures i == PrefixLen(a, b)
  {
    i := 0;
    var length := if |b| < |a| then |b| else |a|;
    while i < length && a[i] == b[i]
      invariant 0 <= i <= length
      invariant PrefixLen(a, b) == i + PrefixLen(a[i..], b[i..])
    {
      i := i + 1;
      assert a[i - 1..][1..] == a[i..] && b[i - 1..][1..] == b[i..];
    }
  }
}
