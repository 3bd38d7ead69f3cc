/**
 The download scheduler: it asks for nodes it does not have, keeps what arrives until
 everything below it has arrived too, and only then lets it be written.
 */
module TrieSync {
  import opened Bytes
  import opened TrieNode
  import opened TrieCodec
  import opened TrieRefs
  import opened FlushList
  import opened TrieSyncBooks

  /** What a leaf callback asks for besides the trie itself. */
  datatype Entry = SubTrie(digest: Digest, callback: nat) | RawEntry(digest: Digest) {
    function Kind(): (k: Kind)
    {
      if RawEntry? then Raw else Trie(callback)
    }

    function Name(): (id: Id)
    {
      Id(digest)
    }
  }

  /** What a callback does with a leaf: the entries it asks for, and whether it then fails. */
  datatype Reply = Reply(entries: seq<Entry>, failed: bool)

  /** The callbacks by number, with the leaf they are given. */
  type Callback = (nat, seq<Byte>) -> Reply

  datatype Result = Done(committed: bool) | NotRequested | AlreadyProcessed | BadNode | CallbackFailed

  /** The hashes among a node's children. */
  function HashChildren(n: Node): (ids: seq<Id>)
    ensures Meta !in ids
  {
    match n
    case Short(_, v) => HashesIn([v])
    case Full(c) => HashesIn(c)
    case _ => []
  }

  function HashesIn(c: seq<Node>): (ids: seq<Id>)
    ensures Meta !in ids
  {
    if c == [] then []
    else (if c[0].Hash? then [Id(c[0].digest)] else []) + HashesIn(c[1..])
  }

  /** The value among a node's children; in a decoded node there is at most one, and it comes last. */
  function ValueChild(n: Node): (v: Option<seq<Byte>>)
  {
    match n
    case Short(_, v) => if v.Value? then Some(v.data) else None
    case Full(c) => if |c| == 17 && c[16].Value? then Some(c[16].data) else None
    case _ => None
  }

  /** Requests stay, with the waiters they had; counters only grow. */
  ghost predicate Grown(rs: Requests, rs': Requests)
  {
    forall x :: x in rs ==>
      x in rs' && rs'[x].data == rs[x].data && rs'[x].kind == rs[x].kind && rs'[x].deps >= rs[x].deps && rs[x].parents <= rs'[x].parents
  }

  lemma GrownSame(rs: Requests)
    ensures Grown(rs, rs)
  {
  }

  /** How an entry is read never changes, from when it is asked for on. */
  ghost predicate Steady(rs: Requests, kinds: map<Id, Kind>, rs': Requests, kinds': map<Id, Kind>)
  {
    (forall h :: h in kinds ==> h in kinds' && kinds'[h] == kinds[h]) &&
    forall h :: h in rs ==> (h in rs' && rs'[h].kind == rs[h].kind) || (h in kinds' && kinds'[h] == rs[h].kind)
  }

  lemma SteadySame(rs: Requests, kinds: map<Id, Kind>)
    ensures Steady(rs, kinds, rs, kinds)
  {
  }

  lemma SteadyGrown(rs: Requests, kinds: map<Id, Kind>, rs': Requests)
    requires Grown(rs, rs')
    ensures Steady(rs, kinds, rs', kinds)
  {
  }

  lemma SteadyTrans(
      rs: Requests, kinds: map<Id, Kind>, rs1: Requests, kinds1: map<Id, Kind>, rs2: Requests, kinds2: map<Id, Kind>)
    requires Steady(rs, kinds, rs1, kinds1) && Steady(rs1, kinds1, rs2, kinds2)
    ensures Steady(rs, kinds, rs2, kinds2)
  {
  }

  lemma SteadyOne(rs: Requests, kinds: map<Id, Kind>, p: Id, r: Request)
    requires p in rs && r.kind == rs[p].kind
    ensures Steady(rs, kinds, rs[p := r], kinds)
  {
  }

  lemma SteadyRemembered(rs: Requests, kinds: map<Id, Kind>, p: Id)
    requires p in rs && p !in kinds
    ensures Steady(rs, kinds, rs, kinds[p := rs[p].kind])
  {
  }

  lemma GrownJoin(rs: Requests, c: Id, waiters: seq<Id>)
    requires c in rs
    ensures Grown(rs, rs[c := rs[c].(parents := rs[c].parents + waiters)])
  {
  }

  lemma GrownNew(rs: Requests, c: Id, r: Request)
    requires c !in rs
    ensures Grown(rs, rs[c := r])
  {
  }

  lemma GrownDeps(rs: Requests, p: Id, n: nat)
    requires p in rs
    ensures Grown(rs, rs[p := rs[p].(deps := rs[p].deps + n)])
  {
  }

  lemma GrownTrans(a: Requests, b: Requests, c: Requests)
    requires Grown(a, b) && Grown(b, c)
    ensures Grown(a, c)
  {
    forall x | x in a
      ensures x in c && c[x].data == a[x].data && c[x].kind == a[x].kind && c[x].deps >= a[x].deps && a[x].parents <= c[x].parents
    {
      assert a[x].parents <= b[x].parents <= c[x].parents;
    }
  }

  /** The requests after `schedule`. */
  ghost function Scheduled(rs: Requests, c: Id, kind: Kind, depth: int, waiters: seq<Id>): (rs': Requests)
  {
    if c in rs then rs[c := rs[c].(parents := rs[c].parents + waiters)]
    else rs[c := Request(kind, None, waiters, depth, 0)]
  }

  /** The requests after an entry has been asked for on behalf of `parent`, if any. */
  ghost function Added(
    rs: Requests, entry: Entry, depth: int, parent: Id, stored: set<Id>, emptyRoot: Id, emptyState: Id): (rs': Requests)
  {
    if Nothing(entry, emptyRoot, emptyState) || entry.Name() in stored then rs
    else if parent in rs then
      Scheduled(rs[parent := rs[parent].(deps := rs[parent].deps + 1)], entry.Name(), entry.Kind(), depth, [parent])
    else Scheduled(rs, entry.Name(), entry.Kind(), depth, [])
  }

  lemma AddedIs(rs: Requests, entry: Entry, depth: int, parent: Id, stored: set<Id>, emptyRoot: Id, emptyState: Id)
    ensures Added(rs, entry, depth, parent, stored, emptyRoot, emptyState) ==
            if Nothing(entry, emptyRoot, emptyState) || entry.Name() in stored then rs
            else if parent in rs then
              Scheduled(rs[parent := rs[parent].(deps := rs[parent].deps + 1)], entry.Name(), entry.Kind(), depth, [parent])
            else Scheduled(rs, entry.Name(), entry.Kind(), depth, [])
    ensures entry.Name() != Meta
  {
    hide Scheduled, Nothing;
  }

  ghost function AddedAll(
    rs: Requests, entries: seq<Entry>, depth: int, parent: Id, stored: set<Id>, emptyRoot: Id, emptyState: Id): (rs': Requests)
  {
    if entries == [] then rs
    else
      var n := |entries| - 1;
      Added(AddedAll(rs, entries[..n], depth, parent, stored, emptyRoot, emptyState),
            entries[n], depth, parent, stored, emptyRoot, emptyState)
  }

  /** Requests may have gone; those that are left only have fewer things to wait for. */
  ghost predicate Lessened(rs: Requests, rs': Requests)
  {
    forall x :: x in rs' ==> x in rs && rs'[x] == rs[x].(deps := rs'[x].deps)
  }

  lemma LessenedSame(rs: Requests)
    ensures Lessened(rs, rs)
  {
  }

  lemma LessenedTrans(a: Requests, b: Requests, c: Requests)
    requires Lessened(a, b) && Lessened(b, c)
    ensures Lessened(a, c)
  {
  }

  lemma LessenedWithout(rs: Requests, x: Id)
    ensures Lessened(rs, rs - {x})
  {
  }

  lemma LessenedOne(rs: Requests, p: Id, n: nat)
    requires p in rs
    ensures Lessened(rs, rs[p := rs[p].(deps := n)])
  {
  }

  /** `c` is stored, or its arrival will be reported to `p`. */
  ghost predicate Settled(c: Id, p: Id, rs: Requests, stored: set<Id>)
  {
    c in stored || (c in rs && p in rs[c].parents)
  }

  class Sync {
    var database: map<Id, seq<Byte>>
    var batch: map<Id, seq<Byte>>
    var order: seq<Id>
    var requests: Requests
    var queue: seq<Id>
    const emptyRoot: Id
    const emptyState: Id
    const leaf: Callback

    ghost var books: Books
    ghost var roots: set<Id>
    /** What was in the database to begin with, and what has been delivered since. */
    ghost var given: map<Id, seq<Byte>>
    /** How each entry was read when it arrived, or is to be read if it was there before. */
    ghost var kinds: map<Id, Kind>

    ghost function Stored(): (ids: set<Id>)
      reads this`database, this`batch
    {
      database.Keys + batch.Keys
    }

    ghost predicate Inv()
      reads this
    {
      Booked(requests, Stored(), books) && ClosedPrefixes(database.Keys, order, books.needs) &&
      Elements(order) == batch.Keys && Meta !in database && Meta !in batch &&
      roots <= database.Keys + batch.Keys + requests.Keys && Genuine(database, batch, requests, given) &&
      Told(books.needs, kinds, given, Stored(), requests, leaf, emptyRoot, emptyState)
    }

    /** Nothing is under way: all that has arrived is stored or still waits for something. */
    ghost predicate Valid()
      reads this
    {
      Inv() && books.owed == multiset{} && books.busy == Meta && EagerBut(requests, books.stuck, Meta)
    }

    /** `schedule`. */
    method Schedule(c: Id, kind: Kind, depth: int, waiters: seq<Id>)
      requires Inv() && c !in Stored() && c != Meta && multiset(waiters) <= books.owed
      modifies this`requests, this`queue, this`books
      ensures Inv() && Grown(old(requests), requests)
      ensures books == old(books).(live := books.live, owed := old(books).owed - multiset(waiters))
      ensures c in requests && forall p :: p in waiters ==> p in requests[c].parents
      ensures requests == Scheduled(old(requests), c, kind, depth, waiters)
      ensures EagerBut(old(requests), books.stuck, books.busy) ==> EagerBut(requests, books.stuck, books.busy)
    {
      hide Booked, ClosedPrefixes, Genuine, Told, Grown;
      ghost var rs := requests;
      if c in requests {
        GrownJoin(requests, c, waiters);
        Join(requests, Stored(), books, c, waiters);
        requests := requests[c := requests[c].(parents := requests[c].parents + waiters)];
        books := books.(owed := books.owed - multiset(waiters));
      } else {
        var r := Request(kind, None, waiters, depth, 0);
        GrownNew(requests, c, r);
        Enqueue(requests, Stored(), books, c, r);
        queue := queue + [c];
        requests := requests[c := r];
        books := books.(live := books.live + [c], owed := books.owed - multiset(waiters));
      }
      GenuineSame(database, batch, rs, requests, given);
      ToldSame(books.needs, kinds, given, Stored(), rs, requests, leaf, emptyRoot, emptyState);
    }

    /** `commit`: stores a complete request and tells those who waited for it. */
    method CommitRequest(x: Id)
      requires Inv() && books.busy == Meta && x in requests && requests[x].data.Some? && requests[x].deps == 0
      requires x !in books.stuck && EagerBut(requests, books.stuck, x)
      modifies this`requests, this`batch, this`order, this`books
      ensures Inv() && books.owed == old(books.owed) && books == old(books).(live := books.live)
      ensures EagerBut(requests, books.stuck, Meta)
      ensures requests.Keys < old(requests.Keys) && old(batch.Keys) <= batch.Keys && x in batch
      ensures Lessened(old(requests), requests) && Steady(old(requests), kinds, requests, kinds)
      decreases |requests|, 0
    {
      hide Booked, ClosedPrefixes, Genuine, Told;
      hide Steady, Lessened;
      var r := requests[x];
      ghost var rs := requests;
      Store(x);
      ghost var rs1 := requests;
      FewerRequests(rs, requests);
      LessenedWithout(rs, x);
      OwedBack(old(books).owed, r.parents);
      NotifyAll(r.parents);
      SteadyTrans(rs, kinds, rs1, kinds, requests, kinds);
      LessenedTrans(rs, rs1, requests);
    }

    /** Moves a complete request to the batch; its waiters are still to be told. */
    method Store(x: Id)
      requires Inv() && books.busy == Meta && x in requests && requests[x].data.Some? && requests[x].deps == 0
      requires x !in books.stuck && EagerBut(requests, books.stuck, x)
      modifies this`requests, this`batch, this`order, this`books
      ensures Inv() && EagerBut(requests, books.stuck, Meta)
      ensures requests == old(requests) - {x} && batch.Keys == old(batch.Keys) + {x}
      ensures Steady(old(requests), kinds, requests, kinds)
      ensures books == old(books).(live := books.live, owed := old(books).owed + multiset(old(requests)[x].parents))
    {
      hide Booked, ClosedPrefixes, Genuine, Told, Steady;
      GenuineStored(database, batch, requests, given, x);
      ToldStored(books.needs, kinds, given, Stored(), requests, x, leaf, emptyRoot, emptyState);
      ghost var k := Position(requests, Stored(), books, x);
      Complete(requests, Stored(), books, k);
      ClosedMore(database.Keys, order, books.needs, x);
      ToldKind(books.needs, kinds, given, Stored(), requests, x, leaf, emptyRoot, emptyState);
      var data := requests[x].data.value;
      ghost var parents := requests[x].parents;
      batch := batch[x := data];
      order := order + [x];
      requests := requests - {x};
      books := books.(live := Without(books.live, k), owed := books.owed + multiset(parents));
      assert database.Keys + batch.Keys == old(database.Keys + batch.Keys) + {x};
      assert Elements(order) == Elements(old(order)) + {x};
    }

    /** The loop of `commit`: each waiter has one thing less to wait for, and may be complete. */
    method NotifyAll(waiters: seq<Id>)
      requires Inv() && books.busy == Meta && EagerBut(requests, books.stuck, Meta) && multiset(waiters) <= books.owed
      modifies this`requests, this`batch, this`order, this`books
      ensures Inv() && books == old(books).(live := books.live, owed := old(books).owed - multiset(waiters))
      ensures EagerBut(requests, books.stuck, Meta)
      ensures requests.Keys <= old(requests.Keys) && old(batch.Keys) <= batch.Keys
      ensures Lessened(old(requests), requests) && Steady(old(requests), kinds, requests, kinds)
      decreases |requests|, 2
    {
      hide *;
      OwedFirst(books.owed, waiters);
      SteadySame(requests, kinds);
      LessenedSame(requests);
      for i := 0 to |waiters|
        invariant Inv() && books == old(books).(live := books.live, owed := Left(old(books).owed, waiters, i))
        invariant EagerBut(requests, books.stuck, Meta)
        invariant requests.Keys <= old(requests.Keys) && old(batch.Keys) <= batch.Keys
        invariant Lessened(old(requests), requests) && Steady(old(requests), kinds, requests, kinds)
      {
        ghost var rs := requests;
        OwedNext(old(books).owed, waiters, i);
        FewerRequests(old(requests), requests);
        NotifyOne(waiters[i], |old(requests)|);
        SteadyTrans(old(requests), kinds, rs, kinds, requests, kinds);
        LessenedTrans(old(requests), rs, requests);
      }
      OwedLast(old(books).owed, waiters);
    }

    /** One round of that loop. */
    method NotifyOne(p: Id, ghost bound: nat)
      requires Inv() && books.busy == Meta && EagerBut(requests, books.stuck, Meta) && p in books.owed
      requires |requests| <= bound
      modifies this`requests, this`batch, this`order, this`books
      ensures Inv() && books == old(books).(live := books.live, owed := old(books).owed - multiset{p})
      ensures EagerBut(requests, books.stuck, Meta)
      ensures requests.Keys <= old(requests.Keys) && old(batch.Keys) <= batch.Keys
      ensures Lessened(old(requests), requests) && Steady(old(requests), kinds, requests, kinds)
      decreases bound, 1
    {
      hide Booked, ClosedPrefixes, Genuine, Told;
      hide Steady, Lessened;
      ghost var rs := requests;
      OwedPending(requests, Stored(), books, p);
      Notify(requests, Stored(), books, p);
      EagerDown(requests, books.stuck, p, requests[p].deps - 1);
      SteadyOne(requests, kinds, p, requests[p].(deps := requests[p].deps - 1));
      LessenedOne(requests, p, requests[p].deps - 1);
      requests := requests[p := requests[p].(deps := requests[p].deps - 1)];
      books := books.(owed := books.owed - multiset{p});
      GenuineSame(database, batch, rs, requests, given);
      ToldSame(books.needs, kinds, given, Stored(), rs, requests, leaf, emptyRoot, emptyState);
      if requests[p].deps == 0 {
        ghost var rs1 := requests;
        CommitRequest(p);
        SteadyTrans(rs, kinds, rs1, kinds, requests, kinds);
        LessenedTrans(rs, rs1, requests);
      }
    }

    /** The Bloom filter never denies what the database has. */
    method BloomContains(id: Id) returns (maybe: bool)
      ensures id in database ==> maybe
    {
      maybe := *;
      if id in database {
        maybe := true;
      }
    }

    /** Whether an entry is already at hand. */
    method Known(id: Id) returns (known: bool)
      ensures known <==> id in Stored()
    {
      if id in batch {
        return true;
      }
      var maybe := BloomContains(id);
      known := maybe && id in database;
    }

    /** `AddSubTrie` and `AddRawEntry`: asks for an entry, unless it is empty or at hand. */
    method AddEntry(entry: Entry, depth: int, parent: Id)
      requires Inv()
      requires parent != Meta ==> parent in requests && requests[parent].data.Some? && parent == books.busy
      modifies this`requests, this`queue, this`books
      ensures Inv() && Grown(old(requests), requests) && books == old(books).(live := books.live)
      ensures EagerBut(old(requests), books.stuck, books.busy) ==> EagerBut(requests, books.stuck, books.busy)
      ensures requests == Added(old(requests), entry, depth, parent, Stored(), emptyRoot, emptyState)
      ensures !Nothing(entry, emptyRoot, emptyState) ==>
                entry.Name() in Stored() || (entry.Name() in requests && (parent != Meta ==> parent in requests[entry.Name()].parents))
    {
      hide *;
      NoMeta();
      GrownSame(requests);
      AddedIs(requests, entry, depth, parent, Stored(), emptyRoot, emptyState);
      if Nothing(entry, emptyRoot, emptyState) {
        return;
      }
      var known := Known(entry.Name());
      if known {
        return;
      }
      if parent != Meta {
        ghost var rs := requests;
        Await(parent, 1);
        ghost var rs1 := requests;
        Schedule(entry.Name(), entry.Kind(), depth, [parent]);
        GrownTrans(rs, rs1, requests);
      } else {
        OwedNone(books.owed);
        Schedule(entry.Name(), entry.Kind(), depth, []);
      }
    }

    /** The request being processed will wait for `n` more. */
    method Await(p: Id, n: nat)
      requires Inv() && p in requests && requests[p].data.Some? && p == books.busy
      modifies this`requests, this`books
      ensures Inv() && Grown(old(requests), requests) && requests.Keys == old(requests.Keys)
      ensures books == old(books).(owed := old(books).owed + multiset{}[p := n])
      ensures EagerBut(old(requests), books.stuck, books.busy) ==> EagerBut(requests, books.stuck, books.busy)
      ensures requests == old(requests)[p := old(requests)[p].(deps := old(requests)[p].deps + n)]
    {
      hide Booked, ClosedPrefixes, Genuine, Told, Grown;
      ghost var rs := requests;
      GrownDeps(requests, p, n);
      Expect(requests, Stored(), books, p, n);
      requests := requests[p := requests[p].(deps := requests[p].deps + n)];
      books := books.(owed := books.owed + multiset{}[p := n]);
      GenuineSame(database, batch, rs, requests, given);
      ToldSame(books.needs, kinds, given, Stored(), rs, requests, leaf, emptyRoot, emptyState);
    }

    /* ---- Process ---- */

    /** The data of a request arrives. */
    method Arrive(p: Id, data: seq<Byte>)
      requires Valid() && p in requests && requests[p].data.None?
      modifies this`requests, this`books, this`given
      ensures Inv() && requests == old(requests)[p := old(requests)[p].(data := Some(data))] && requests[p].deps == 0
      ensures given == old(given)[p := data] && p !in Stored() && p !in batch
      ensures p !in kinds && Steady(old(requests), kinds, requests, kinds)
      ensures books == old(books).(stuck := old(books).stuck + {p}, busy := p)
      ensures EagerBut(requests, books.stuck, books.busy) && p != Meta && books.owed == multiset{}
    {
      hide Booked, ClosedPrefixes, Genuine, Told;
      ghost var _ := Position(requests, Stored(), books, p);
      InRequests(p);
      NotStored(requests, Stored(), books, p);
      GenuineArrived(database, batch, requests, given, p, data);
      ToldArrived(books.needs, kinds, given, Stored(), requests, p, data, leaf, emptyRoot, emptyState);
      Begin(requests, Stored(), books, p, data);
      SteadyOne(requests, kinds, p, requests[p].(data := Some(data)));
      requests := requests[p := requests[p].(data := Some(data))];
      books := books.(stuck := books.stuck + {p}, busy := p);
      given := given[p := data];
    }

    /** The node is done with: all it refers to is stored or scheduled. */
    ghost method Conclude(p: Id, kids: seq<Id>)
      requires Inv() && p in requests && requests[p].data.Some? && books.busy == p && p in given
      requires kids == References(requests[p].kind, given[p], leaf, emptyRoot, emptyState)
      requires forall c :: c in kids ==> Settled(c, p, requests, Stored())
      requires EagerBut(requests, books.stuck, p)
      modifies this`books, this`kinds
      ensures Inv() && EagerBut(requests, books.stuck, p) && kinds == old(kinds)[p := requests[p].kind]
      ensures books == old(books).(needs := old(books).needs[p := kids], stuck := old(books).stuck - {p}, busy := Meta)
    {
      hide Booked, ClosedPrefixes, Genuine, Told, References;
      ghost var _ := Position(requests, Stored(), books, p);
      Finish(requests, Stored(), books, p, kids);
      NotStored(requests, Stored(), books, p);
      ClosedOther(database.Keys, order, books.needs, p, kids);
      ToldMore(books.needs, kinds, given, Stored(), requests, p, leaf, emptyRoot, emptyState);
      books := books.(needs := books.needs[p := kids], stuck := books.stuck - {p}, busy := Meta);
      kinds := kinds[p := requests[p].kind];
    }

    /** Those of `ids` that are not at hand. */
    method Unknown(ids: seq<Id>) returns (missing: seq<Id>)
      ensures forall c :: c in missing ==> c in ids && c !in Stored()
      ensures forall c :: c in ids ==> c in Stored() || c in missing
    {
      missing := [];
      for i := 0 to |ids|
        invariant forall c :: c in missing ==> c in ids && c !in Stored()
        invariant forall j :: 0 <= j < i ==> ids[j] in Stored() || ids[j] in missing
      {
        var known := Known(ids[i]);
        if !known {
          missing := missing + [ids[i]];
        }
      }
    }

    /** Schedules the missing children of the node being processed, which already waits for them. */
    method ScheduleAll(missing: seq<Id>, p: Id, kind: Kind, depth: int, ghost base: multiset<Id>)
      requires Inv() && p == books.busy && books.owed == Copies(base, p, |missing|)
      requires forall c :: c in missing ==> c != Meta && c !in Stored()
      modifies this`requests, this`queue, this`books
      ensures Inv() && Grown(old(requests), requests) && books == old(books).(live := books.live, owed := base)
      ensures EagerBut(old(requests), books.stuck, books.busy) ==> EagerBut(requests, books.stuck, books.busy)
      ensures forall c :: c in missing ==> Settled(c, p, requests, Stored())
    {
      hide Booked, ClosedPrefixes, Grown, EagerBut, Genuine, Told;
      GrownSame(requests);
      for i := 0 to |missing|
        invariant Inv() && Grown(old(requests), requests)
        invariant books == old(books).(live := books.live, owed := Copies(base, p, |missing| - i))
        invariant EagerBut(old(requests), books.stuck, books.busy) ==> EagerBut(requests, books.stuck, books.busy)
        invariant forall j :: 0 <= j < i ==> Settled(missing[j], p, requests, Stored())
      {
        ghost var rs := requests;
        CopiesNext(base, p, |missing| - i);
        assert missing[i] in missing;
        Schedule(missing[i], kind, depth, [p]);
        StillSettled(missing, i, p, rs, requests, Stored());
        GrownTrans(old(requests), rs, requests);
      }
      CopiesNone(base, p);
    }

    /** The leaf callback's entries for the node being processed. */
    method AddAll(entries: seq<Entry>, depth: int, p: Id)
      requires Inv() && p in requests && requests[p].data.Some? && p == books.busy && p != Meta
      modifies this`requests, this`queue, this`books
      ensures Inv() && Grown(old(requests), requests) && books == old(books).(live := books.live)
      ensures EagerBut(old(requests), books.stuck, books.busy) ==> EagerBut(requests, books.stuck, books.busy)
      ensures requests == AddedAll(old(requests), entries, depth, p, Stored(), emptyRoot, emptyState)
      ensures forall c :: c in Wanted(entries, emptyRoot, emptyState) ==> Settled(c, p, requests, Stored())
    {
      hide Booked, ClosedPrefixes, Grown, EagerBut, Genuine, Told;
      GrownSame(requests);
      assert entries[..0] == [];
      for i := 0 to |entries|
        invariant Inv() && Grown(old(requests), requests) && books == old(books).(live := books.live)
        invariant p in requests && requests[p].data.Some?
        invariant EagerBut(old(requests), books.stuck, books.busy) ==> EagerBut(requests, books.stuck, books.busy)
        invariant requests == AddedAll(old(requests), entries[..i], depth, p, Stored(), emptyRoot, emptyState)
        invariant AllSettled(Wanted(entries[..i], emptyRoot, emptyState), p, requests, Stored())
      {
        ghost var rs := requests;
        assert entries[..i + 1][..i] == entries[..i];
        AddEntry(entries[i], depth, p);
        GrownAt(rs, requests, p);
        WantedNext(entries, i, emptyRoot, emptyState, p, rs, requests, Stored());
        GrownTrans(old(requests), rs, requests);
      }
      assert entries[..|entries|] == entries;
    }

    /** One result of `Process`. */
    method ProcessOne(hash: Id, data: seq<Byte>) returns (r: Result)
      requires Valid()
      modifies this
      ensures Valid() && database == old(database) && old(batch.Keys) <= batch.Keys
      ensures r.NotRequested? <==> hash !in old(requests)
      ensures r.AlreadyProcessed? <==> hash in old(requests) && old(requests)[hash].data.Some?
      ensures r.NotRequested? || r.AlreadyProcessed? || r.BadNode? ==>
                requests == old(requests) && batch == old(batch) && books == old(books) && given == old(given)
      ensures r.BadNode? <==> Taken(old(requests), hash) && old(requests)[hash].kind.Trie? && DecodeNode(data).None?
      ensures r.CallbackFailed? <==> Taken(old(requests), hash) && Fails(old(requests)[hash].kind, data, leaf)
      ensures r.CallbackFailed? ==>
                CutShort(old(requests)[hash := old(requests)[hash].(data := Some(data))], requests, hash,
                         Answer(DecodeNode(data).value, old(requests)[hash].kind.callback, leaf).entries,
                         Stored(), emptyRoot, emptyState, old(books), books)
      ensures r.Done? ==> books.stuck <= old(books).stuck
      ensures r.Done? && old(requests)[hash].kind.Raw? ==>
                r.committed && Lessened(old(requests)[hash := old(requests)[hash].(data := Some(data))], requests)
      ensures r.Done? || r.CallbackFailed? ==> given == old(given)[hash := data]
      ensures Steady(old(requests), old(kinds), requests, kinds) && roots == old(roots)
      ensures r.Done? ==>
                (r.committed <==> hash in batch) && (hash in batch || hash in requests) && hash !in books.stuck &&
                books.needs == old(books).needs[hash := References(old(requests)[hash].kind, data, leaf, emptyRoot, emptyState)]
      ensures if r == Done(true) then hash in batch.Keys - old(batch.Keys) else batch == old(batch)
    {
      hide *;
      SteadySame(requests, kinds);
      ghost var rs, kinds0, books0 := requests, kinds, books;
      WhenTaken(requests, hash);
      FailsWhen(Raw, data, leaf);
      if hash !in requests {
        return NotRequested;
      }
      if requests[hash].data.Some? {
        return AlreadyProcessed;
      }
      var kind, depth := requests[hash].kind, requests[hash].depth;
      if kind.Raw? {
        Arrive(hash, data);
        ghost var rs1 := requests;
        RawSettled(requests, data, leaf, emptyRoot, emptyState, hash, Stored());
        CompleteNow(hash, References(Raw, data, leaf, emptyRoot, emptyState));
        SteadyTrans(rs, kinds0, rs1, kinds0, requests, kinds);
        return Done(true);
      }
      FailsWhen(kind, data, leaf);
      var n := DecodeNode(data);
      if n.None? {
        return BadNode;
      }
      Arrive(hash, data);
      ghost var rs1, books1 := requests, books;
      r := ProcessNode(hash, data, n.value, kind.callback, depth);
      SteadyTrans(rs, kinds0, rs1, kinds0, requests, kinds);
      if r.CallbackFailed? {
        CutSince(rs1, requests, hash, Answer(n.value, kind.callback, leaf).entries, Stored(), emptyRoot, emptyState,
                 books0, books1, books);
      }
    }

    /** A decoded node: its children are asked for, or it is complete. */
    method ProcessNode(hash: Id, data: seq<Byte>, node: Node, callback: nat, depth: int) returns (r: Result)
      requires Inv() && hash in requests && requests[hash].data.Some? && requests[hash].deps == 0
      requires books.busy == hash && hash != Meta && books.owed == multiset{} && hash in books.stuck
      requires EagerBut(requests, books.stuck, hash) && DecodeNode(data) == Some(node)
      requires requests[hash].kind == Trie(callback) && requests[hash].depth == depth && hash in given && given[hash] == data && hash !in kinds
      modifies this
      ensures Valid() && database == old(database) && old(batch.Keys) <= batch.Keys && given == old(given)
      ensures r.Done? || r.CallbackFailed?
      ensures r.Done? ==>
                (r.committed <==> hash in batch) && (hash in batch || hash in requests) && hash !in books.stuck &&
                books.needs == old(books).needs[hash := References(Trie(callback), data, leaf, emptyRoot, emptyState)]
      ensures r.Done? ==> books.stuck <= old(books).stuck
      ensures r.CallbackFailed? <==> Answer(node, callback, leaf).failed
      ensures r.CallbackFailed? ==>
                CutShort(old(requests), requests, hash, Answer(node, callback, leaf).entries, Stored(), emptyRoot, emptyState,
                         old(books), books)
      ensures r == Done(true) || batch == old(batch)
      ensures Steady(old(requests), old(kinds), requests, kinds) && roots == old(roots)
    {
      hide *;
      SteadySame(requests, kinds);
      ghost var rs0, kinds0, books0 := requests, kinds, books;
      var missing := Unknown(HashChildren(node));
      var reply := Answer(node, callback, leaf);
      ghost var kids, wanted := References(Trie(callback), data, leaf, emptyRoot, emptyState), Wanted(reply.entries, emptyRoot, emptyState);
      ReferencesOf(data, node, callback, leaf, emptyRoot, emptyState, reply);
      AddAll(reply.entries, depth + 1, hash);
      GrownAt(rs0, requests, hash);
      ghost var rs1 := requests;
      SteadyGrown(rs0, kinds0, rs1);
      if reply.failed {
        if requests[hash].deps == 0 {
          Desert(hash);
        } else {
          assert kids == wanted;
          Conclude(hash, kids);
          WaitsStill(requests, books.stuck, hash);
          SteadyRemembered(rs1, kinds0, hash);
          SteadyTrans(rs0, kinds0, rs1, kinds0, requests, kinds);
          Whole();
        }
        CutIs(rs0, requests, hash, reply.entries, Stored(), emptyRoot, emptyState, books0, books);
        return CallbackFailed;
      }
      if missing == [] && requests[hash].deps == 0 {
        GrownSame(rs1);
        KidsSettled(HashChildren(node), missing, wanted, kids, hash, rs1, rs1, Stored());
        CompleteNow(hash, kids);
        SteadyTrans(rs0, kinds0, rs1, kinds0, requests, kinds);
        return Done(true);
      }
      MissingNamed(node, missing);
      AwaitMissing(hash, missing, depth + (if node.Short? then |node.key| else 1), HashChildren(node), wanted, kids);
      SteadyTrans(rs0, kinds0, rs1, kinds0, requests, kinds);
      r := Done(false);
    }

    /** Everything the node refers to is stored: so is the node. */
    method CompleteNow(hash: Id, ghost kids: seq<Id>)
      requires Inv() && hash in requests && requests[hash].data.Some? && requests[hash].deps == 0
      requires books.busy == hash && hash != Meta && books.owed == multiset{} && hash in given && hash !in kinds
      requires EagerBut(requests, books.stuck, hash)
      requires kids == References(requests[hash].kind, given[hash], leaf, emptyRoot, emptyState)
      requires forall c :: c in kids ==> Settled(c, hash, requests, Stored())
      modifies this`requests, this`batch, this`order, this`books, this`kinds
      ensures Valid() && old(batch.Keys) <= batch.Keys && hash in batch && hash !in books.stuck
      ensures books.needs == old(books).needs[hash := kids] && Steady(old(requests), old(kinds), requests, kinds)
      ensures books.stuck <= old(books).stuck && Lessened(old(requests), requests)
    {
      hide *;
      ghost var rs, kinds0 := requests, kinds;
      SteadyRemembered(rs, kinds, hash);
      Conclude(hash, kids);
      CommitRequest(hash);
      SteadyTrans(rs, kinds0, rs, kinds, requests, kinds);
      InBatch(hash);
      Whole();
    }

    /** The node waits for what is missing, in the way it is read itself. */
    method AwaitMissing(hash: Id, missing: seq<Id>, depth: int,
                        ghost hashes: seq<Id>, ghost wanted: seq<Id>, ghost kids: seq<Id>)
      requires Inv() && hash in requests && requests[hash].data.Some? && (missing != [] || requests[hash].deps > 0)
      requires books.busy == hash && hash != Meta && books.owed == multiset{} && hash in given && hash !in kinds
      requires EagerBut(requests, books.stuck, hash) && kids == hashes + wanted
      requires kids == References(requests[hash].kind, given[hash], leaf, emptyRoot, emptyState)
      requires forall c :: c in missing ==> c != Meta && c in hashes && c !in Stored()
      requires forall c :: c in hashes ==> c in Stored() || c in missing
      requires forall c :: c in wanted ==> Settled(c, hash, requests, Stored())
      modifies this`requests, this`queue, this`books, this`kinds
      ensures Valid() && hash in requests && hash !in batch && hash !in books.stuck
      ensures books.needs == old(books).needs[hash := kids] && Steady(old(requests), old(kinds), requests, kinds)
      ensures books.stuck <= old(books).stuck
    {
      hide *;
      ghost var rs1, kinds0, base := requests, kinds, books.owed;
      var kind := requests[hash].kind;
      Await(hash, |missing|);
      ghost var rs2 := requests;
      AwaitCopies(base, hash, |missing|);
      ScheduleAll(missing, hash, kind, depth, base);
      GrownTrans(rs1, rs2, requests);
      KidsSettled(hashes, missing, wanted, kids, hash, rs1, requests, Stored());
      GrownAt(rs1, requests, hash);
      SteadyRemembered(requests, kinds, hash);
      Conclude(hash, kids);
      SteadyGrown(rs1, kinds0, requests);
      SteadyTrans(rs1, kinds0, requests, kinds0, requests, kinds);
      StillWaits(rs1, rs2, requests, books.stuck, hash, |missing|);
      InRequests(hash);
      Whole();
    }

    lemma Whole()
      requires Inv() && books.owed == multiset{} && books.busy == Meta && EagerBut(requests, books.stuck, Meta)
      ensures Valid()
    {
    }

    /** The leaf callback failed: the request stays behind, and will never be stored. */
    ghost method Desert(p: Id)
      requires Inv() && p in requests && requests[p].deps == 0 && books.busy == p && p in books.stuck
      requires EagerBut(requests, books.stuck, p) && books.owed == multiset{}
      modifies this`books
      ensures Valid() && books == old(books).(busy := Meta)
    {
      hide Booked, ClosedPrefixes, Genuine, Told;
      Abandon(requests, Stored(), books, p);
      books := books.(busy := Meta);
    }

    lemma InBatch(x: Id)
      requires Inv() && x in batch
      ensures x !in requests && x in books.needs
    {
      BookedParts(requests, Stored(), books);
    }

    lemma InRequests(x: Id)
      requires Inv() && x in requests
      ensures x !in batch
    {
      BookedParts(requests, Stored(), books);
    }

    /** `Process`: stops at the first result that fails, and says which. */
    method Process(results: seq<(Id, seq<Byte>)>) returns (committed: bool, failed: Option<(nat, Result)>)
      requires Valid()
      modifies this
      ensures Valid() && database == old(database) && old(batch.Keys) <= batch.Keys
      ensures failed.Some? ==> failed.value.0 < |results| && !failed.value.1.Done?
      ensures committed <==> batch.Keys != old(batch.Keys)
      ensures given == Deliver(old(given), results[..TakenIn(results, failed)])
      ensures Steady(old(requests), old(kinds), requests, kinds) && roots == old(roots)
    {
      committed, failed := false, None;
      hide Inv, EagerBut, Valid, Steady;
      SteadySame(requests, kinds);
      for i := 0 to |results|
        invariant Valid() && database == old(database) && old(batch.Keys) <= batch.Keys
        invariant committed <==> batch.Keys != old(batch.Keys)
        invariant given == Deliver(old(given), results[..i])
        invariant Steady(old(requests), old(kinds), requests, kinds) && roots == old(roots)
      {
        ghost var rs, kinds1 := requests, kinds;
        var r := ProcessOne(results[i].0, results[i].1);
        SteadyTrans(old(requests), old(kinds), rs, kinds1, requests, kinds);
        assert results[..i + 1][..i] == results[..i];
        if !r.Done? {
          return committed, Some((i, r));
        }
        committed := committed || r.committed;
      }
      assert results[..|results|] == results;
    }

    /** How many results were taken in before `Process` stopped; a failing callback has seen its node. */
    static ghost function TakenIn(results: seq<(Id, seq<Byte>)>, failed: Option<(nat, Result)>): (n: nat)
      requires failed.Some? ==> failed.value.0 < |results|
      ensures n <= |results|
    {
      if failed.None? then |results| else failed.value.0 + if failed.value.1.CallbackFailed? then 1 else 0
    }

    /** `AddSubTrie` and `AddRawEntry` without a parent: a new thing to fetch in full. */
    method AddRoot(entry: Entry, depth: int)
      requires Valid()
      modifies this
      ensures Valid() && database == old(database) && batch == old(batch)
      ensures given == old(given) && kinds == old(kinds) && books.needs == old(books).needs
      ensures Steady(old(requests), kinds, requests, kinds)
      ensures requests == Added(old(requests), entry, depth, Meta, Stored(), emptyRoot, emptyState)
      ensures roots == old(roots) + if Nothing(entry, emptyRoot, emptyState) then {} else {entry.Name()}
    {
      hide Booked, ClosedPrefixes;
      NoMeta();
      AddEntry(entry, depth, Meta);
      SteadyGrown(old(requests), kinds, requests);
      if !Nothing(entry, emptyRoot, emptyState) {
        roots := roots + {entry.Name()};
      }
    }

    lemma NoMeta()
      requires Inv()
      ensures Meta !in requests
    {
    }

    /** `NewSync`: over a database that is closed under what its entries refer to. */
    constructor (database: map<Id, seq<Byte>>, ghost kinds: map<Id, Kind>, root: Digest, callback: nat,
                 emptyRoot: Id, emptyState: Id, leaf: Callback)
      requires Meta !in database && database.Keys == kinds.Keys
      requires forall h, c :: h in database && c in References(kinds[h], database[h], leaf, emptyRoot, emptyState) ==>
                 c in database
      ensures Valid() && this.database == database && batch == map[] && this.kinds == kinds && given == database
      ensures this.leaf == leaf && this.emptyRoot == emptyRoot && this.emptyState == emptyState
      ensures roots == if Id(root) == emptyRoot then {} else {Id(root)}
      ensures requests == if Id(root) == emptyRoot || Id(root) in database then map[]
                          else map[Id(root) := Request(Trie(callback), None, [], 0, 0)]
    {
      hide References, Booked, ClosedPrefixes, Genuine, Told, EagerBut;
      ghost var needs := map h | h in database :: References(kinds[h], database[h], leaf, emptyRoot, emptyState);
      this.database, batch, order, requests, queue := database, map[], [], map[], [];
      this.emptyRoot, this.emptyState, this.leaf := emptyRoot, emptyState, leaf;
      books, roots, given, this.kinds := Books([], multiset{}, needs, {}, Meta), {}, database, kinds;
      new;
      EmptyBooked(database.Keys, needs);
      FirstTold(database, kinds, needs, leaf, emptyRoot, emptyState);
      assert Stored() == database.Keys;
      AddRoot(SubTrie(root, callback), 0);
    }

    /** `Commit`: writes the batch in order; whenever it stops, what is written is closed. */
    method Commit() returns (ok: bool, written: nat)
      requires Valid()
      modifies this
      ensures Valid() && Stored() == old(Stored()) && requests == old(requests) && books == old(books)
      ensures given == old(given) && kinds == old(kinds) && roots == old(roots)
      ensures old(database.Keys) <= database.Keys && written <= |old(order)|
      ensures database.Keys == old(database.Keys) + Elements(old(order)[..written])
      ensures ok ==> written == |old(order)| && batch == map[] && order == []
    {
      hide Booked, EagerBut, ClosedPrefixes, Genuine, Told;
      ghost var base := database.Keys;
      ok, written := WriteOrder();
      ClosedWritten(base, order, books.needs, written);
      WrittenStored(base, order, written);
      assert database.Keys + batch.Keys == old(database.Keys + batch.Keys);
      if ok {
        assert order[..|order|] == order;
        assert Elements([]) == {};
        GenuineWritten(database, batch, requests, given);
        batch, order := map[], [];
        assert database.Keys + batch.Keys == old(database.Keys + batch.Keys);
      }
    }

    /** The loop of `Commit`; any write may fail. */
    method WriteOrder() returns (ok: bool, written: nat)
      requires Elements(order) == batch.Keys && Meta !in database && Meta !in batch
      requires Genuine(database, batch, requests, given)
      modifies this`database
      ensures Genuine(database, batch, requests, given)
      ensures written <= |order| && (ok ==> written == |order|)
      ensures database.Keys == old(database.Keys) + Elements(order[..written]) && Meta !in database
    {
      ghost var base := database.Keys;
      written := 0;
      assert order[..0] == [];
      while written < |order|
        invariant written <= |order| && database.Keys == base + Elements(order[..written]) && Meta !in database
        invariant Genuine(database, batch, requests, given)
      {
        var fails: bool := *;
        if fails {
          return false, written;
        }
        var key := order[written];
        assert key in Elements(order);
        database := database[key := batch[key]];
        assert Elements(order[..written + 1]) == Elements(order[..written]) + {key};
        written := written + 1;
      }
      ok := true;
    }

    /* ---- What completion means ---- */

    /** What is stored is closed under what it refers to, and so is what is written. */
    lemma StoredClosed(h: Id, c: Id)
      requires Valid() && h in books.needs && c in books.needs[h]
      ensures h in Stored() ==> c in Stored()
      ensures h in database ==> c in database
    {
      if h in batch {
        assert h in Elements(order);
        var i :| 0 <= i < |order| && order[i] == h;
        assert c in database.Keys || c in order[..i];
        assert forall x :: x in order[..i] ==> x in Elements(order);
      }
    }

    /** What is stored, in the database or in the batch. */
    ghost function Contents(): (m: map<Id, seq<Byte>>)
      reads this`database, this`batch
    {
      database + batch
    }

    /** The data stored under `h` refers to `c`. */
    ghost predicate Refers(h: Id, c: Id)
      reads this
    {
      h in Contents() && h in kinds && c in References(kinds[h], Contents()[h], leaf, emptyRoot, emptyState)
    }

    /** What is stored was delivered, or was there before. */
    lemma StoredGiven(h: Id)
      requires Valid() && h in Contents()
      ensures h in given && Contents()[h] == given[h]
    {
      hide Booked, Told, ClosedPrefixes;
    }

    /** The last request cannot wait for itself. */
    lemma LastRequest(p: Id)
      requires Valid() && p in requests && requests[p].data.Some? && p !in books.stuck && requests.Keys == {p}
      ensures requests[p].parents != []
    {
      hide Booked, Genuine, Told, ClosedPrefixes;
      if requests[p].parents == [] {
        AloneWaitsNot(requests, Stored(), books, p);
      }
    }

    lemma StoredRead(h: Id)
      requires Valid() && h in Contents()
      ensures h in kinds
    {
      BookedParts(requests, Stored(), books);
    }

    /** What is stored is the data that was delivered, and all that this data refers to is stored. */
    lemma RefersStored(h: Id, c: Id)
      requires Valid() && Refers(h, c)
      ensures c in Contents() && Contents()[h] == given[h]
      ensures h in database ==> c in database
    {
      hide References, ClosedPrefixes;
      BookedParts(requests, Stored(), books);
      assert Contents()[h] == given[h] && c in books.needs[h];
      StoredClosed(h, c);
    }

    /** When nothing is pending, everything that can be reached from what was asked for is stored. */
    lemma {:induction false} NothingPending(path: seq<Id>, k: nat)
      requires Valid() && requests == map[] && k < |path| && path[0] in roots
      requires forall i, j :: 0 <= i < j < |path| && j == i + 1 && path[i] in Contents() ==> Refers(path[i], path[j])
      ensures path[k] in Contents()
    {
      if k > 0 {
        NothingPending(path, k - 1);
        RefersStored(path[k - 1], path[k]);
      }
    }
  }

  /** Data is kept as it was delivered. */
  ghost predicate Genuine(database: map<Id, seq<Byte>>, batch: map<Id, seq<Byte>>, rs: Requests, given: map<Id, seq<Byte>>)
  {
    (forall h :: h in database ==> h in given && database[h] == given[h]) &&
    (forall h :: h in batch ==> h in given && batch[h] == given[h]) &&
    (forall h :: h in rs && rs[h].data.Some? ==> h in given && rs[h].data.value == given[h])
  }

  lemma GenuineSame(
      database: map<Id, seq<Byte>>, batch: map<Id, seq<Byte>>, rs: Requests, rs': Requests, given: map<Id, seq<Byte>>)
    requires Genuine(database, batch, rs, given)
    requires forall h :: h in rs' && rs'[h].data.Some? ==> h in rs && rs[h].data == rs'[h].data
    ensures Genuine(database, batch, rs', given)
  {
  }

  lemma GenuineStored(
      database: map<Id, seq<Byte>>, batch: map<Id, seq<Byte>>, rs: Requests, given: map<Id, seq<Byte>>, x: Id)
    requires Genuine(database, batch, rs, given) && x in rs && rs[x].data.Some?
    ensures Genuine(database, batch[x := rs[x].data.value], rs - {x}, given)
  {
  }

  lemma GenuineArrived(
      database: map<Id, seq<Byte>>, batch: map<Id, seq<Byte>>, rs: Requests, given: map<Id, seq<Byte>>, p: Id, data: seq<Byte>)
    requires Genuine(database, batch, rs, given) && p in rs && p !in database && p !in batch
    ensures Genuine(database, batch, rs[p := rs[p].(data := Some(data))], given[p := data])
  {
  }

  lemma GenuineWritten(database: map<Id, seq<Byte>>, batch: map<Id, seq<Byte>>, rs: Requests, given: map<Id, seq<Byte>>)
    requires Genuine(database, batch, rs, given)
    ensures Genuine(database, map[], rs, given)
  {
  }

  /** What an entry needs is what its data refers to. */
  ghost predicate Told(
    needs: map<Id, seq<Id>>, kinds: map<Id, Kind>, given: map<Id, seq<Byte>>, stored: set<Id>, rs: Requests,
    leaf: Callback, emptyRoot: Id, emptyState: Id)
  {
    kinds.Keys == needs.Keys &&
    forall h :: h in needs ==>
      (h in stored || (h in rs && rs[h].data.Some?)) && (h in rs ==> rs[h].kind == kinds[h]) && h in given &&
      needs[h] == References(kinds[h], given[h], leaf, emptyRoot, emptyState)
  }

  lemma FirstTold(
      database: map<Id, seq<Byte>>, kinds: map<Id, Kind>, needs: map<Id, seq<Id>>,
      leaf: Callback, emptyRoot: Id, emptyState: Id)
    requires database.Keys == kinds.Keys == needs.Keys
    requires forall h :: h in database ==> needs[h] == References(kinds[h], database[h], leaf, emptyRoot, emptyState)
    requires forall h, c :: h in database && c in needs[h] ==> c in database
    ensures Told(needs, kinds, database, database.Keys, map[], leaf, emptyRoot, emptyState)
    ensures Genuine(database, map[], map[], database) && ClosedPrefixes(database.Keys, [], needs)
    ensures Elements([]) == {}
  {
    hide References;
  }

  lemma ToldSame(
      needs: map<Id, seq<Id>>, kinds: map<Id, Kind>, given: map<Id, seq<Byte>>, stored: set<Id>, rs: Requests, rs': Requests,
      leaf: Callback, emptyRoot: Id, emptyState: Id)
    requires Told(needs, kinds, given, stored, rs, leaf, emptyRoot, emptyState)
    requires forall h :: h in rs && rs[h].data.Some? ==> h in rs' && rs'[h].data.Some?
    requires forall h :: h in rs' ==> if h in rs then rs'[h].kind == rs[h].kind else h !in stored
    ensures Told(needs, kinds, given, stored, rs', leaf, emptyRoot, emptyState)
  {
    hide References;
  }

  lemma ToldKind(
      needs: map<Id, seq<Id>>, kinds: map<Id, Kind>, given: map<Id, seq<Byte>>, stored: set<Id>, rs: Requests, x: Id,
      leaf: Callback, emptyRoot: Id, emptyState: Id)
    requires Told(needs, kinds, given, stored, rs, leaf, emptyRoot, emptyState) && x in needs && x in rs
    ensures x in kinds && kinds[x] == rs[x].kind
    ensures Steady(rs, kinds, rs - {x}, kinds)
  {
    hide References;
  }

  lemma ToldStored(
      needs: map<Id, seq<Id>>, kinds: map<Id, Kind>, given: map<Id, seq<Byte>>, stored: set<Id>, rs: Requests, x: Id,
      leaf: Callback, emptyRoot: Id, emptyState: Id)
    requires Told(needs, kinds, given, stored, rs, leaf, emptyRoot, emptyState)
    ensures Told(needs, kinds, given, stored + {x}, rs - {x}, leaf, emptyRoot, emptyState)
  {
    hide References;
  }

  lemma ToldArrived(
      needs: map<Id, seq<Id>>, kinds: map<Id, Kind>, given: map<Id, seq<Byte>>, stored: set<Id>, rs: Requests,
      p: Id, data: seq<Byte>, leaf: Callback, emptyRoot: Id, emptyState: Id)
    requires Told(needs, kinds, given, stored, rs, leaf, emptyRoot, emptyState)
    requires p in rs && rs[p].data.None? && p !in stored
    ensures p !in kinds
    ensures Told(needs, kinds, given[p := data], stored, rs[p := rs[p].(data := Some(data))], leaf, emptyRoot, emptyState)
  {
    hide References;
  }

  lemma ToldMore(
      needs: map<Id, seq<Id>>, kinds: map<Id, Kind>, given: map<Id, seq<Byte>>, stored: set<Id>, rs: Requests,
      p: Id, leaf: Callback, emptyRoot: Id, emptyState: Id)
    requires Told(needs, kinds, given, stored, rs, leaf, emptyRoot, emptyState)
    requires p in rs && rs[p].data.Some? && p in given
    ensures var kids := References(rs[p].kind, given[p], leaf, emptyRoot, emptyState);
            Told(needs[p := kids], kinds[p := rs[p].kind], given, stored, rs, leaf, emptyRoot, emptyState)
  {
    hide References;
  }

  /** An empty trie or an empty blob, for which nothing is asked. */
  predicate Nothing(entry: Entry, emptyRoot: Id, emptyState: Id)
  {
    entry.Name() == if entry.SubTrie? then emptyRoot else emptyState
  }

  lemma OwedNone(owed: multiset<Id>)
    ensures multiset([]) <= owed && owed - multiset([]) == owed
  {
  }

  /** What a node's value child makes the callback do. */
  function Answer(n: Node, callback: nat, leaf: Callback): (reply: Reply)
  {
    match ValueChild(n)
    case None => Reply([], false)
    case Some(v) => leaf(callback, v)
  }

  /** Everything that an entry refers to; of a node on which the callback fails, only what the callback asked for. */
  ghost function References(
    kind: Kind, data: seq<Byte>, leaf: Callback, emptyRoot: Id, emptyState: Id): (ids: seq<Id>)
  {
    if kind.Raw? || DecodeNode(data).None? then []
    else
      var n := DecodeNode(data).value;
      var reply := Answer(n, kind.callback, leaf);
      (if reply.failed then [] else HashChildren(n)) + Wanted(reply.entries, emptyRoot, emptyState)
  }

  lemma ReferencesOf(
      data: seq<Byte>, n: Node, callback: nat, leaf: Callback, emptyRoot: Id, emptyState: Id, reply: Reply)
    requires DecodeNode(data) == Some(n) && reply == Answer(n, callback, leaf)
    ensures References(Trie(callback), data, leaf, emptyRoot, emptyState) ==
            (if reply.failed then [] else HashChildren(n)) + Wanted(reply.entries, emptyRoot, emptyState)
  {
    hide DecodeNode, HashChildren, Answer, Wanted;
  }

  /** A request that is waiting for its data. */
  ghost predicate Taken(rs: Requests, hash: Id)
  {
    hash in rs && rs[hash].data.None?
  }

  lemma WhenTaken(rs: Requests, hash: Id)
    ensures Taken(rs, hash) <==> hash in rs && rs[hash].data.None?
  {
  }

  /** The data is a node on which the callback fails. */
  ghost predicate Fails(kind: Kind, data: seq<Byte>, leaf: Callback)
  {
    kind.Trie? && DecodeNode(data).Some? && Answer(DecodeNode(data).value, kind.callback, leaf).failed
  }

  lemma FailsWhen(kind: Kind, data: seq<Byte>, leaf: Callback)
    ensures Fails(kind, data, leaf) <==>
            kind.Trie? && DecodeNode(data).Some? && Answer(DecodeNode(data).value, kind.callback, leaf).failed
  {
    hide DecodeNode, Answer;
  }

  /**
   Where the callback failed, what it had asked for by then is asked for.  If that is
   anything, the node waits for it, and for nothing else; if not, it waits for ever.
   */
  ghost predicate CutShort(
    rs: Requests, rs': Requests, hash: Id, entries: seq<Entry>, stored: set<Id>, emptyRoot: Id, emptyState: Id,
    b: Books, b': Books)
  {
    hash in rs && hash in rs' && rs' == AddedAll(rs, entries, rs[hash].depth + 1, hash, stored, emptyRoot, emptyState) &&
    b'.stuck <= b.stuck + {hash} &&
    if rs'[hash].deps == 0 then b'.needs == b.needs && hash in b'.stuck
    else b'.needs == b.needs[hash := Wanted(entries, emptyRoot, emptyState)] && hash !in b'.stuck
  }

  lemma CutIs(
      rs: Requests, rs': Requests, hash: Id, entries: seq<Entry>, stored: set<Id>, emptyRoot: Id, emptyState: Id,
      b: Books, b': Books)
    requires hash in rs && hash in rs' && rs' == AddedAll(rs, entries, rs[hash].depth + 1, hash, stored, emptyRoot, emptyState)
    requires b'.stuck <= b.stuck + {hash}
    requires if rs'[hash].deps == 0 then b'.needs == b.needs && hash in b'.stuck
             else b'.needs == b.needs[hash := Wanted(entries, emptyRoot, emptyState)] && hash !in b'.stuck
    ensures CutShort(rs, rs', hash, entries, stored, emptyRoot, emptyState, b, b')
  {
    hide AddedAll, Wanted;
  }

  lemma CutSince(
      rs: Requests, rs': Requests, hash: Id, entries: seq<Entry>, stored: set<Id>, emptyRoot: Id, emptyState: Id,
      b: Books, b1: Books, b': Books)
    requires CutShort(rs, rs', hash, entries, stored, emptyRoot, emptyState, b1, b')
    requires b1.needs == b.needs && b1.stuck == b.stuck + {hash}
    ensures CutShort(rs, rs', hash, entries, stored, emptyRoot, emptyState, b, b')
  {
    hide AddedAll, Wanted;
  }

  lemma WaitsStill(rs: Requests, stuck: set<Id>, p: Id)
    requires EagerBut(rs, stuck, p) && p in rs && rs[p].deps > 0
    ensures EagerBut(rs, stuck, Meta)
  {
  }

  lemma RawSettled(
      rs: Requests, data: seq<Byte>, leaf: Callback, emptyRoot: Id, emptyState: Id, p: Id, stored: set<Id>)
    ensures forall c :: c in References(Raw, data, leaf, emptyRoot, emptyState) ==> Settled(c, p, rs, stored)
  {
  }

  lemma KidsSettled(
      hashes: seq<Id>, missing: seq<Id>, wanted: seq<Id>, kids: seq<Id>, p: Id, rs: Requests, rs': Requests, stored: set<Id>)
    requires kids == hashes + wanted && Grown(rs, rs')
    requires forall c :: c in hashes ==> c in stored || c in missing
    requires forall c :: c in missing ==> Settled(c, p, rs', stored)
    requires forall c :: c in wanted ==> Settled(c, p, rs, stored)
    ensures forall c :: c in kids ==> Settled(c, p, rs', stored)
  {
    hide Grown;
    forall c | c in kids
      ensures Settled(c, p, rs', stored)
    {
      if c in wanted {
        SettledGrown(c, p, rs, rs', stored);
      }
    }
  }

  lemma MissingNamed(n: Node, missing: seq<Id>)
    requires forall c :: c in missing ==> c in HashChildren(n)
    ensures forall c :: c in missing ==> c != Meta
  {
  }

  lemma AwaitCopies(base: multiset<Id>, p: Id, n: nat)
    ensures base + multiset{}[p := n] == Copies(base, p, n)
  {
  }

  lemma StillWaits(rs: Requests, rs1: Requests, rs2: Requests, stuck: set<Id>, p: Id, n: nat)
    requires p in rs && p in rs1 && rs1[p].deps == rs[p].deps + n && n + rs[p].deps > 0
    requires Grown(rs1, rs2) && EagerBut(rs2, stuck, p)
    ensures EagerBut(rs2, stuck, Meta) && p in rs2
  {
  }

  lemma EmptyBooked(stored: set<Id>, needs: map<Id, seq<Id>>)
    requires stored <= needs.Keys
    ensures Booked(map[], stored, Books([], multiset{}, needs, {}, Meta)) && EagerBut(map[], {}, Meta)
  {
    assert Elements([]) == {};
  }

  lemma WrittenStored(base: set<Id>, order: seq<Id>, n: nat)
    requires n <= |order|
    ensures base + Elements(order[..n]) + Elements(order) == base + Elements(order)
  {
    assert forall x :: x in order[..n] ==> x in order;
  }

  /** The data at hand after some results have been delivered. */
  ghost function Deliver(given: map<Id, seq<Byte>>, results: seq<(Id, seq<Byte>)>): (given': map<Id, seq<Byte>>)
  {
    if results == [] then given
    else
      var n := |results| - 1;
      Deliver(given, results[..n])[results[n].0 := results[n].1]
  }

  lemma NotStored(rs: Requests, stored: set<Id>, b: Books, p: Id)
    requires Booked(rs, stored, b) && p in rs
    ensures p !in stored
  {
  }

  ghost predicate AllSettled(ids: seq<Id>, p: Id, rs: Requests, stored: set<Id>)
  {
    forall c :: c in ids ==> Settled(c, p, rs, stored)
  }

  lemma GrownAt(rs: Requests, rs': Requests, p: Id)
    requires Grown(rs, rs') && p in rs
    ensures p in rs' && rs'[p].data == rs[p].data && rs'[p].kind == rs[p].kind
  {
  }

  lemma SettledGrown(c: Id, p: Id, rs: Requests, rs': Requests, stored: set<Id>)
    requires Settled(c, p, rs, stored) && Grown(rs, rs')
    ensures Settled(c, p, rs', stored)
  {
    if c in rs {
      assert rs[c].parents <= rs'[c].parents;
      assert forall q :: q in rs[c].parents ==> q in rs'[c].parents;
    }
  }

  lemma StillSettled(missing: seq<Id>, i: nat, p: Id, rs: Requests, rs': Requests, stored: set<Id>)
    requires i < |missing| && Grown(rs, rs') && Settled(missing[i], p, rs', stored)
    requires forall j :: 0 <= j < i ==> Settled(missing[j], p, rs, stored)
    ensures forall j :: 0 <= j < i + 1 ==> Settled(missing[j], p, rs', stored)
  {
    hide Grown, Settled;
    forall j | 0 <= j < i
      ensures Settled(missing[j], p, rs', stored)
    {
      SettledGrown(missing[j], p, rs, rs', stored);
    }
  }

  /** The entries that are asked for. */
  function Wanted(entries: seq<Entry>, emptyRoot: Id, emptyState: Id): (ids: seq<Id>)
  {
    if entries == [] then []
    else
      var n := |entries| - 1;
      Wanted(entries[..n], emptyRoot, emptyState) +
      if Nothing(entries[n], emptyRoot, emptyState) then [] else [entries[n].Name()]
  }

  lemma WantedNext(
      entries: seq<Entry>, i: nat, emptyRoot: Id, emptyState: Id, p: Id, rs: Requests, rs': Requests, stored: set<Id>)
    requires i < |entries| && Grown(rs, rs') && AllSettled(Wanted(entries[..i], emptyRoot, emptyState), p, rs, stored)
    requires !Nothing(entries[i], emptyRoot, emptyState) ==> Settled(entries[i].Name(), p, rs', stored)
    ensures AllSettled(Wanted(entries[..i + 1], emptyRoot, emptyState), p, rs', stored)
  {
    hide Grown, Settled;
    assert entries[..i + 1][..i] == entries[..i];
    forall c | c in Wanted(entries[..i], emptyRoot, emptyState)
      ensures Settled(c, p, rs', stored)
    {
      SettledGrown(c, p, rs, rs', stored);
    }
  }

  ghost function Copies(base: multiset<Id>, p: Id, n: nat): (ids: multiset<Id>)
  {
    base + multiset{}[p := n]
  }

  lemma CopiesNext(base: multiset<Id>, p: Id, n: nat)
    requires n > 0
    ensures multiset([p]) <= Copies(base, p, n) && Copies(base, p, n) - multiset([p]) == Copies(base, p, n - 1)
  {
  }

  lemma CopiesNone(base: multiset<Id>, p: Id)
    ensures Copies(base, p, 0) == base
  {
  }

  /** What is still owed after the first `i` of `ids` have been told. */
  ghost function Left(owed: multiset<Id>, ids: seq<Id>, i: nat): (left: multiset<Id>)
    requires i <= |ids|
  {
    owed - multiset(ids[..i])
  }

  lemma OwedBack(owed: multiset<Id>, ids: seq<Id>)
    ensures multiset(ids) <= owed + multiset(ids) && owed + multiset(ids) - multiset(ids) == owed
  {
  }

  lemma OwedFirst(owed: multiset<Id>, ids: seq<Id>)
    ensures Left(owed, ids, 0) == owed
  {
    assert ids[..0] == [];
  }

  lemma OwedNext(owed: multiset<Id>, ids: seq<Id>, i: nat)
    requires i < |ids| && multiset(ids) <= owed
    ensures ids[i] in Left(owed, ids, i) && Left(owed, ids, i) - multiset{ids[i]} == Left(owed, ids, i + 1)
  {
    assert ids[..i + 1] == ids[..i] + [ids[i]];
    assert ids == ids[..i + 1] + ids[i + 1..];
  }

  lemma OwedLast(owed: multiset<Id>, ids: seq<Id>)
    ensures Left(owed, ids, |ids|) == owed - multiset(ids)
  {
    assert ids[..|ids|] == ids;
  }

  /** Whoever is owed a notification is still pending. */
  lemma OwedPending(rs: Requests, stored: set<Id>, b: Books, p: Id)
    requires Booked(rs, stored, b) && p in b.owed
    ensures p in rs && Meta !in rs
  {
    DueOwed(rs, b, p);
  }
}
