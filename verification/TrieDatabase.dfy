/**
 The write cache between tries and the disk: a reference-counted set of collapsed
 nodes with a flush list, garbage collection, flushing and committing.  The links
 of a cached node are kept in two maps beside the node.
 */
module TrieDatabase {
  import opened Bytes
  import opened TrieNode
  import opened TrieRefs
  import opened FlushList
  import opened TrieLedger
  import opened TrieWeights
  import opened TrieCacheFacts

  class Database {
    var dirties: Entries
    var prev: Links
    var next: Links
    var oldest: Id
    var newest: Id
    var dirtiesSize: int
    var childrenSize: int
    var disk: Storage

    ghost var ledger: Ledger
    ghost var below: Below
    ghost const rank: Id -> nat
    ghost const content: Id -> Content

    ghost predicate Inv()
      reads this
    {
      Sound(dirties, ledger, disk.Keys, rank) && Rooted(dirties) &&
      Chained(ledger.order, oldest, newest, prev, next) &&
      StoredClosed(below, disk.Keys, content) && Named(dirties, disk, content)
    }

    /** Nothing is being torn down. */
    ghost predicate Valid()
      reads this
    {
      Inv() && ledger.pending == [] && ledger.owed == multiset{}
    }

    /** By how much the two running totals differ from what the cached nodes weigh. */
    ghost function Drift(): (w: int)
      reads this`dirtiesSize, this`childrenSize, this`dirties, this`ledger
    {
      dirtiesSize + childrenSize - Burden(dirties, ledger.order, ledger.pending)
    }

    /** An empty cache over a disk whose references all lead to stored nodes. */
    constructor (disk: Storage, ghost below: Below,
                 ghost rank: Id -> nat, ghost content: Id -> Content)
      requires StoredClosed(below, disk.Keys, content) && forall h :: h in disk ==> disk[h] == content(h).blob
      ensures Valid() && Drift() == 0 && this.disk == disk && this.below == below
      ensures this.rank == rank && this.content == content && ledger.order == []
      ensures dirties == EMPTY
    {
      hide Sound, Named, Chained, StoredClosed, Rooted, Burden;
      EmptyFacts(disk, rank, content);
      dirties := EMPTY;
      prev, next := map[Meta := Meta], map[Meta := Meta];
      oldest, newest := Meta, Meta;
      dirtiesSize, childrenSize := 0, 0;
      this.disk, this.below, this.rank, this.content := disk, below, rank, content;
      ledger := NEW_LEDGER;
    }

    /** Takes a listed node out of the flush list. */
    method Unlink(x: Id, ghost k: nat)
      requires Chained(ledger.order, oldest, newest, prev, next) && k < |ledger.order| && ledger.order[k] == x
      modifies this`oldest, this`newest, this`prev, this`next
      ensures Chained(Without(ledger.order, k), oldest, newest, prev, next)
    {
      ghost var order := ledger.order;
      if x == oldest {
        UnlinkFirst(order, oldest, newest, prev, next);
        oldest := next[x];
        prev := prev[oldest := Meta];
      } else if x == newest {
        UnlinkLast(order, oldest, newest, prev, next);
        newest := prev[x];
        next := next[newest := Meta];
      } else {
        UnlinkMiddle(order, oldest, newest, prev, next, k);
        var before, after := prev[x], next[x];
        next := next[before := after];
        prev := prev[after := before];
      }
    }

    /** The first half of `dereference`: the parent forgets a reference from outside, if it has one. */
    method DropReference(parent: Id, child: Id)
      requires parent in dirties
      modifies this`dirties, this`childrenSize
      ensures var outer := Outer(old(dirties[parent]));
              if child in outer then
                dirties == Relinked(old(dirties), parent, outer - multiset{child}) &&
                childrenSize == old(childrenSize) - if outer[child] == 1 then CHILD_SIZE else 0
              else dirties == old(dirties) && childrenSize == old(childrenSize)
    {
      var node := dirties[parent];
      if node.children.Some? && node.children.value[child] > 0 {
        var children := node.children.value - multiset{child};
        dirties := Relinked(dirties, parent, children);
        if children[child] == 0 {
          childrenSize := childrenSize - CHILD_SIZE;
        }
      }
    }

    /** The second half of `dereference`: gives up one outstanding reference to `child`. */
    method Release(child: Id)
      requires Inv() && child in ledger.owed && child != Meta
      requires forall p :: p in ledger.pending ==> rank(child) < rank(p)
      modifies this
      ensures Inv() && ledger.owed == old(ledger.owed) - multiset{child}
      ensures Only(old(ledger), ledger) && disk == old(disk) && below == old(below)
      ensures Survives(old(dirties), dirties) && Undisturbed(old(dirties), dirties, ledger.pending)
      ensures child in old(dirties) ==>
                if old(dirties[child].parents) <= 1 then child !in dirties
                else dirties == CountedDown(old(dirties), child)
      ensures child !in old(dirties) ==> dirties == old(dirties)
      ensures Drift() == old(Drift())
      decreases rank(child), 2
    {
      hide Sound, Chained, StoredClosed, Named, Survives, Burden, CountedDown, Outer, Weight;
      ListedBySound(dirties, ledger, disk.Keys, rank);
      ghost var d := dirties;
      SurvivesSame(d);
      if child !in dirties {
        SoundGone(dirties, ledger, disk.Keys, rank, child);
        ledger := ledger.(owed := ledger.owed - multiset{child});
      } else {
        SoundCountDown(dirties, ledger, disk.Keys, rank, child);
        CountedDownFacts(dirties, child);
        BurdenSame(dirties, CountedDown(dirties, child), ledger.order, ledger.pending);
        NamedDown(dirties, child, disk, content);
        dirties := CountedDown(dirties, child);
        ledger := ledger.(owed := ledger.owed - multiset{child});
        if dirties[child].parents == 0 {
          ghost var d1 := dirties;
          TearDown(child);
          SurvivesAround(d, d1, dirties, child);
        }
      }
    }

    /** Removes a node without references: unlinks it, gives up what it refers to, and deletes it. */
    method TearDown(x: Id)
      requires Inv() && x in dirties && x != Meta && dirties[x].parents == 0 && x !in ledger.pending
      requires forall p :: p in ledger.pending ==> rank(x) < rank(p)
      modifies this
      ensures Inv() && ledger.owed == old(ledger.owed) && x !in dirties
      ensures Only(old(ledger), ledger) && disk == old(disk) && below == old(below)
      ensures Survives(old(dirties), dirties) && Undisturbed(old(dirties), dirties, ledger.pending)
      ensures Drift() == old(Drift())
      decreases rank(x), 1
    {
      hide *;
      var e := dirties[x];
      ghost var d, l := dirties, ledger;
      NoMeta();
      var ids, outside := DueChilds(x, e);
      Detach(x);
      ghost var l1 := ledger;
      OnlyPending(l.(pending := l.pending + [x]), l1);
      DereferenceAll(x, ids, outside);
      ghost var d1, l2 := dirties, ledger;
      OnlyTrans(l.(pending := l.pending + [x]), l1, l2);
      OnlyDetour(l, l2, x);
      Forget(x);
      SurvivesLess(d, d1, x);
      UndisturbedLess(d, d1, l.pending, x);
    }

    /** What a node about to be torn down will have to give up. */
    method DueChilds(x: Id, e: Entry) returns (ids: seq<Id>, ghost outside: seq<Id>)
      requires Inv() && x in dirties && x != Meta && e == dirties[x]
      requires forall p :: p in ledger.pending ==> rank(x) < rank(p)
      ensures Descends(rank, ids, x) && Beneath(rank, x, ledger.pending + [x])
      ensures Due(ledger.owed + HeldBy(e).All(), ids, outside, Outer(e))
      ensures ledger.owed + HeldBy(e).All() - multiset(ids) == ledger.owed
    {
      hide *;
      ids, outside := Childs(e);
      HeldInside(x);
      ChildsAreHeld(e, outside);
      OwedAll(ledger.owed, ids, HeldBy(e).All(), outside, Outer(e));
      Ranks(rank, ids, HeldBy(e).All(), x, ledger.pending);
    }

    lemma NoMeta()
      requires Inv()
      ensures Meta !in ledger.pending
    {
      ListedBySound(dirties, ledger, disk.Keys, rank);
    }

    lemma HeldInside(x: Id)
      requires Inv() && x in dirties && x != Meta
      ensures forall c :: c in HeldBy(dirties[x]).All() ==> c != Meta && rank(c) < rank(x)
      ensures forall c :: c in Outer(dirties[x]) ==> Outer(dirties[x])[c] == 1
    {
      HeldFacts(dirties, ledger, disk.Keys, rank, x);
    }

    /** Takes a node without references out of the list; what it refers to becomes outstanding. */
    method Detach(x: Id)
      requires Inv() && x in dirties && x != Meta && dirties[x].parents == 0 && x !in ledger.pending
      modifies this`oldest, this`newest, this`prev, this`next, this`ledger
      ensures Inv() && Only(old(ledger).(pending := old(ledger.pending) + [x]), ledger)
      ensures ledger.owed == old(ledger).owed + HeldBy(dirties[x]).All()
      ensures Drift() == old(Drift())
    {
      hide Sound, Chained, StoredClosed, Named, Burden, HeldBy, Without;
      ListedBySound(dirties, ledger, disk.Keys, rank);
      ghost var k :| 0 <= k < |ledger.order| && ledger.order[k] == x;
      SoundDetach(dirties, ledger, disk.Keys, rank, k);
      BurdenDetach(dirties, ledger.order, ledger.pending, k);
      Unlink(x, k);
      ledger := ledger.(order := Without(ledger.order, k), pending := ledger.pending + [x],
                        owed := ledger.owed + HeldBy(dirties[x]).All());
    }

    /** The loop of `dereference`: gives up all references of the node torn down last. */
    method DereferenceAll(x: Id, ids: seq<Id>, ghost outside: seq<Id>)
      requires Inv() && x in dirties && ledger.pending != [] && ledger.pending[|ledger.pending| - 1] == x
      requires Beneath(rank, x, ledger.pending) && Descends(rank, ids, x)
      requires Due(ledger.owed, ids, outside, Outer(dirties[x]))
      modifies this
      ensures Inv() && ledger.owed == old(ledger.owed) - multiset(ids)
      ensures Only(old(ledger), ledger) && disk == old(disk) && below == old(below)
      ensures x in dirties && Outer(dirties[x]) == multiset{} && dirties[x].size == old(dirties[x]).size
      ensures dirties[x].children.Some? == old(dirties[x]).children.Some?
      ensures Survives(old(dirties), dirties)
      ensures UndisturbedBut(old(dirties), dirties, ledger.pending, x)
      ensures Drift() == old(Drift())
      decreases rank(x), 0
    {
      hide *;
      ghost var d0, l0 := dirties, ledger;
      SurvivesSame(d0);
      UndisturbedSame(d0, l0.pending, x);
      OnlySame(l0);
      OwedFirst(l0.owed, ids, outside, Outer(d0[x]));
      for i := 0 to |ids|
        invariant Inv() && Only(l0, ledger) && disk == old(disk) && below == old(below)
        invariant ledger.owed == Remaining(l0.owed, ids, i)
        invariant x in dirties && dirties[x].size == d0[x].size
        invariant dirties[x].children.Some? == d0[x].children.Some?
        invariant Outer(dirties[x]) == StillHeld(outside, i)
        invariant Survives(d0, dirties) && UndisturbedBut(d0, dirties, l0.pending, x)
        invariant Drift() == old(Drift())
      {
        ghost var d, l := dirties, ledger;
        OnlyPending(l0, l);
        OwedNext(l0.owed, ids, i, outside, Outer(d0[x]));
        DescendsAt(rank, ids, x, i);
        TearReference(x, ids[i]);
        TornTrans(d0, d, dirties, l0, l, ledger, x);
      }
      OnlyPending(l0, ledger);
      OwedLast(l0.owed, ids, outside, Outer(d0[x]));
    }

    /** One round of that loop. */
    method TearReference(x: Id, c: Id)
      requires Inv() && x in dirties && ledger.pending != [] && ledger.pending[|ledger.pending| - 1] == x
      requires Beneath(rank, x, ledger.pending)
      requires c != Meta && rank(c) < rank(x) && c in ledger.owed
      modifies this
      ensures Inv() && ledger.owed == old(ledger.owed) - multiset{c}
      ensures Only(old(ledger), ledger) && disk == old(disk) && below == old(below)
      ensures x in dirties && Outer(dirties[x]) == Outer(old(dirties[x])) - multiset{c}
      ensures dirties[x].size == old(dirties[x]).size
      ensures dirties[x].children.Some? == old(dirties[x]).children.Some?
      ensures Survives(old(dirties), dirties)
      ensures UndisturbedBut(old(dirties), dirties, ledger.pending, x)
      ensures Drift() == old(Drift())
      decreases rank(x), 0, 0
    {
      hide *;
      ghost var d := dirties;
      NoMeta();
      BeneathAll(rank, c, x, ledger.pending);
      Forgo(x, c);
      ghost var d1 := dirties;
      ghost var l := ledger;
      Release(c);
      OnlyPending(l, ledger);
      SurvivesTrans(d, d1, dirties);
      UndisturbedKeeps(d1, dirties, ledger.pending, x);
      UndisturbedTrans(d, d1, dirties, ledger.pending, x);
    }

    /** A node being torn down forgets a reference from outside. */
    method Forgo(x: Id, c: Id)
      requires Inv() && x in dirties && ledger.pending != [] && ledger.pending[|ledger.pending| - 1] == x
      modifies this`dirties, this`childrenSize
      ensures Inv() && Drift() == old(Drift())
      ensures x in dirties && Outer(dirties[x]) == Outer(old(dirties[x])) - multiset{c}
      ensures dirties[x].size == old(dirties[x]).size
      ensures dirties[x].children.Some? == old(dirties[x]).children.Some?
      ensures Survives(old(dirties), dirties)
      ensures UndisturbedBut(old(dirties), dirties, ledger.pending, x)
    {
      hide Sound, Chained, StoredClosed, Named, Burden, Weight;
      ghost var d := dirties;
      ListedBySound(dirties, ledger, disk.Keys, rank);
      DropReference(x, c);
      if c in Outer(d[x]) {
        ghost var children := Outer(d[x]) - multiset{c};
        SoundDrop(d, ledger, disk.Keys, rank, x, children);
        BurdenUpdate(d, ledger.order, ledger.pending, x, d[x].(children := Some(children)));
        WeightDrop(d[x], c);
        NamedSurvivors(d, dirties, disk, content);
      } else {
        assert Outer(d[x]) - multiset{c} == Outer(d[x]);
      }
    }

    /** Deletes the node torn down last, once it refers to nothing from outside. */
    method Forget(x: Id)
      requires Inv() && x in dirties && ledger.pending != [] && ledger.pending[|ledger.pending| - 1] == x
      requires Outer(dirties[x]) == multiset{}
      modifies this
      ensures Inv() && dirties == old(dirties) - {x}
      ensures ledger == old(ledger).(pending := old(ledger).pending[..|old(ledger).pending| - 1])
      ensures disk == old(disk) && below == old(below)
      ensures Drift() == old(Drift())
    {
      hide Sound, Chained, StoredClosed, Named, Burden, Weight, Outer;
      WeightBare(dirties[x]);
      ListedBySound(dirties, ledger, disk.Keys, rank);
      SoundForget(dirties, ledger, disk.Keys, rank);
      BurdenForget(dirties, ledger.order, ledger.pending);
      ChainForget(ledger.order, oldest, newest, prev, next, x);
      NamedLess(dirties, x, disk, content);
      var node := dirties[x];
      dirties, prev, next := dirties - {x}, prev - {x}, next - {x};
      dirtiesSize := dirtiesSize - (HASH_LENGTH + node.size);
      if node.children.Some? {
        childrenSize := childrenSize - CHILDREN_SIZE;
      }
      ledger := ledger.(pending := ledger.pending[..|ledger.pending| - 1]);
    }

    /* ---- insert ---- */

    /**
     `insert`: caches a node, unless it is cached already.  The nodes inside it must be
     cached or stored, and its hash stands for its content and for the names inside it.
     */
    method Insert(hash: Id, blob: seq<Byte>, node: Option<Node>)
      requires Valid() && content(hash) == Content(blob, if node.None? then [] else Gather(node.value))
      requires hash !in dirties && node.Some? ==>
                 forall c :: c in Gather(node.value) ==> rank(c) < rank(hash) && (c in dirties || c in disk)
      modifies this
      ensures Valid() && disk == old(disk) && below == old(below)
      ensures hash in old(dirties) ==> dirties == old(dirties) && ledger == old(ledger) && Drift() == old(Drift())
      ensures hash !in old(dirties) ==>
                var e := Entry(node, blob, Uint16(|blob|), 0, None);
                dirties == CountedUpAll(old(dirties), Inner(e))[hash := e] &&
                ledger.order == old(ledger.order) + [hash] &&
                Drift() == old(Drift()) - if e.size > 65503 then 0x1_0000 else 0
    {
      hide *;
      if hash !in dirties {
        MetaCached();
        var entry := Entry(node, blob, Uint16(|blob|), 0, None);
        InnerOf(entry);
        InsertEntry(hash, entry);
      }
    }

    lemma Parts()
      requires Valid()
      ensures Inv() && ledger.pending == [] && ledger.owed == multiset{}
    {
    }

    lemma Whole()
      requires Inv() && ledger.pending == [] && ledger.owed == multiset{}
      ensures Valid()
    {
    }

    lemma MetaCached()
      requires Valid()
      ensures Meta in dirties
    {
      ListedBySound(dirties, ledger, disk.Keys, rank);
    }

    /** Caches a node that is not cached. */
    method InsertEntry(hash: Id, entry: Entry)
      requires Valid() && hash !in dirties && hash != Meta && Matches(entry, content(hash))
      requires entry.parents == 0 && entry.children.None? && entry.size == Uint16(|entry.blob|)
      requires forall c :: c in Inner(entry) ==> rank(c) < rank(hash) && (c in dirties || c in disk)
      modifies this
      ensures Valid() && disk == old(disk) && below == old(below)
      ensures dirties == CountedUpAll(old(dirties), Inner(entry))[hash := entry]
      ensures ledger.order == old(ledger.order) + [hash]
      ensures Drift() == old(Drift()) - if entry.size > 65503 then 0x1_0000 else 0
    {
      hide Sound, Chained, StoredClosed, Named, Burden, CountedUpAll, GraphOf, Inner, Within, Charge, Uint16;
      hide Listed, Distinct, Rooted;
      ghost var d, l := dirties, ledger;
      ListBasics(d, l, disk.Keys, rank, hash);
      var ids, _ := Childs(entry);
      InsertFacts(d, l, disk.Keys, rank, hash, entry);
      InsertNamed(d, ids, hash, entry, disk, content);
      InsertBurden(d, ids, l.order, hash, entry);
      ChargeFacts(|entry.blob|);
      CountUpEach(ids);
      dirties := dirties[hash := entry];
      Append(hash);
      dirtiesSize := dirtiesSize + Charge(entry.size);
      ledger := Enlisted(GraphOf(d), l, hash);
    }

    /** Adds a node at the end of the flush list. */
    method Append(hash: Id)
      requires Chained(ledger.order, oldest, newest, prev, next) && hash !in ledger.order && hash != Meta
      modifies this`oldest, this`newest, this`prev, this`next
      ensures Chained(ledger.order + [hash], oldest, newest, prev, next)
    {
      ChainAppend(ledger.order, oldest, newest, prev, next, hash);
      prev, next := prev[hash := newest], next[hash := Meta];
      if oldest == Meta {
        oldest, newest := hash, hash;
      } else {
        next, newest := next[newest := hash], hash;
      }
    }

    /** The loop of `insert` over the nodes inside the new one. */
    method CountUpEach(ids: seq<Id>)
      modifies this`dirties
      ensures dirties == CountedUpAll(old(dirties), ids)
    {
      ghost var d := dirties;
      assert ids[..0] == [];
      for i := 0 to |ids|
        invariant dirties == CountedUpAll(d, ids[..i])
      {
        assert ids[..i + 1][..i] == ids[..i];
        if ids[i] in dirties {
          dirties := dirties[ids[i] := dirties[ids[i]].(parents := dirties[ids[i]].parents + 1)];
        }
      }
      assert ids[..|ids|] == ids;
    }

    /* ---- Reference and Dereference ---- */

    /**
     `reference`: the meta-root may refer to a node any number of times, another node
     once, and only to something older or stored.
     */
    method Reference(child: Id, parent: Id)
      requires Valid() && parent in dirties && child != Meta
      requires parent != Meta ==>
                 rank(child) < rank(parent) && (child in dirties ==> child in disk || Older(ledger, child, parent))
      modifies this
      ensures Valid() && disk == old(disk) && below == old(below) && ledger == old(ledger)
      ensures var d := old(dirties);
              if child !in d || (parent != Meta && child in Outer(d[parent])) then dirties == d
              else dirties == Relinked(CountedUp(d, child), parent, Outer(d[parent]) + multiset{child})
      ensures Drift() == old(Drift())
    {
      hide Sound, Chained, StoredClosed, Named, Burden, CountedUp, Relinked, Rooted, Older;
      hide Listed, Distinct;
      if child !in dirties {
        return;
      }
      ghost var d := dirties;
      if dirties[parent].children.Some? && child in dirties[parent].children.value && parent != Meta {
        return;
      }
      var children := Outer(dirties[parent]) + multiset{child};
      ReferenceKeeps(d, ledger, disk, rank, content, child, parent);
      if dirties[parent].children.None? {
        childrenSize := childrenSize + CHILDREN_SIZE;
      }
      dirties := Relinked(CountedUp(dirties, child), parent, children);
      if children[child] == 1 {
        childrenSize := childrenSize + CHILD_SIZE;
      }
    }

    /** The meta-root gives up a reference, which becomes outstanding. */
    method DropRoot(root: Id)
      requires Valid() && Meta in dirties && root in Outer(dirties[Meta])
      modifies this`dirties, this`childrenSize, this`ledger
      ensures Inv() && ledger == old(ledger).(owed := multiset{root}) && Drift() == old(Drift())
      ensures dirties == Relinked(old(dirties), Meta, Outer(old(dirties)[Meta]) - multiset{root})
    {
      hide Sound, Chained, StoredClosed, Named, Burden;
      ghost var d := dirties;
      ghost var e := d[Meta].(children := Some(Outer(d[Meta]) - multiset{root}));
      ListedBySound(d, ledger, disk.Keys, rank);
      SoundDropRoot(d, ledger, disk.Keys, rank, root);
      BurdenUpdateRoot(d, ledger.order, [], e);
      TargetsLess(Outer(d[Meta]), root);
      DropReference(Meta, root);
      NamedRelinked(d, Meta, Outer(d[Meta]) - multiset{root}, disk, content);
      ledger := ledger.(owed := ledger.owed + multiset{root});
    }

    /** `Dereference` of a root that the meta-root refers to, or that is not cached. */
    method Dereference(root: Id)
      requires Valid() && Meta in dirties && (root in dirties && root != Meta ==> root in Outer(dirties[Meta]))
      modifies this
      ensures Valid() && disk == old(disk) && below == old(below) && Only(old(ledger), ledger)
      ensures root == Meta ==> dirties == old(dirties)
      ensures Survives(old(dirties), dirties) && Drift() == old(Drift())
      ensures Meta in dirties && (ExactCounts(old(dirties), old(ledger)) ==> ExactCounts(dirties, ledger))
      ensures root != Meta ==> Outer(dirties[Meta]) == Outer(old(dirties[Meta])) - multiset{root}
      ensures root in old(dirties) && root != Meta && old(dirties[root].parents) <= 1 ==> root !in dirties
      ensures root in old(dirties) && root != Meta && old(dirties[root].parents) > 1 ==>
                dirties.Keys == old(dirties.Keys) && dirties[root].parents == old(dirties[root].parents) - 1
    {
      hide *;
      MetaCached();
      SurvivesSame(dirties);
      OnlySame(ledger);
      if root == Meta {
        return;
      }
      ghost var d, l := dirties, ledger;
      Parts();
      if root in Outer(dirties[Meta]) {
        DropRoot(root);
        ghost var d1, l1 := dirties, ledger;
        OnlyOwed(l, multiset{root});
        Release(root);
        OnlyPending(l1, ledger);
        ReleasedRoot(d, d1, dirties, root);
        OnlyTrans(l, l1, ledger);
        Whole();
        ExactKept(d, l, dirties, ledger);
      } else {
        assert Outer(d[Meta]) - multiset{root} == Outer(d[Meta]);
      }
    }

    /* ---- Storing and uncaching ---- */

    /** Writes a batch to disk, which may fail and then changes nothing. */
    method Write(batch: Storage, ghost staged: Below) returns (ok: bool)
      requires Valid() && Stageable(batch, staged, disk.Keys, content)
      modifies this`disk, this`below
      ensures Valid()
      ensures if ok then disk == old(disk) + batch && below == Merged(old(below), staged)
              else disk == old(disk) && below == old(below)
      ensures Extends(old(disk), disk) && Grows(old(below), below)
    {
      hide Sound, Chained, StoredClosed, Named, Stageable, Rooted, Merged;
      GrowsSame(below);
      ok := *;
      if ok {
        WriteKeeps(dirties, ledger, disk, below, batch, staged, rank, content);
        disk := disk + batch;
        MergedFacts(below, staged);
        below := Merged(below, staged);
      }
    }

    /** `cleaner.Put`: a node that has been written leaves the cache. */
    method Put(hash: Id)
      requires Valid() && hash in disk
      modifies this
      ensures Valid() && disk == old(disk) && below == old(below)
      ensures dirties == old(dirties) - {hash} && Drift() == old(Drift())
    {
      hide Sound, Chained, StoredClosed, Named, Burden, Without, HeldBy, Slackened, Listed, Distinct, Rooted, Weight;
      if hash !in dirties {
        assert dirties - {hash} == dirties;
        return;
      }
      ghost var d, l := dirties, ledger;
      ghost var k := Position(d, l, disk, below, rank, content, hash);
      UncacheKeeps(d, l, disk, rank, content, k);
      Unlink(hash, k);
      ChainForget(Without(l.order, k), oldest, newest, prev, next, hash);
      var node := dirties[hash];
      dirties, prev, next := dirties - {hash}, prev - {hash}, next - {hash};
      ledger := l.(order := Without(l.order, k), slack := Slackened(l.slack, HeldBy(node).All()));
      DischargeWhole(node);
    }

    /** Takes what a node weighs off one of the running totals, as `cleaner.Put` does. */
    method DischargeWhole(node: Entry)
      modifies this`dirtiesSize
      ensures dirtiesSize == old(dirtiesSize) - Weight(node)
    {
      dirtiesSize := dirtiesSize - (HASH_LENGTH + node.size);
      if node.children.Some? {
        dirtiesSize := dirtiesSize - (CHILDREN_SIZE + CHILD_SIZE * |Targets(node.children.value)|);
      }
    }

    /* ---- Cap ---- */

    /** One round of the second loop of `Cap`: the oldest node, which has been written, leaves the cache. */
    method DropOldest()
      requires Valid() && ledger.order != [] && ledger.order[0] in disk
      modifies this
      ensures Valid() && disk == old(disk) && below == old(below)
      ensures ledger.order == old(ledger.order)[1..] && dirties == old(dirties) - {old(ledger.order)[0]}
      ensures Drift() == old(Drift())
    {
      hide Sound, Chained, StoredClosed, Named, Burden, Without, HeldBy, Slackened, Rooted, Weight;
      ghost var d, l := dirties, ledger;
      UncacheKeeps(d, l, disk, rank, content, 0);
      UnlinkFirst(l.order, oldest, newest, prev, next);
      FirstOut(l.order, oldest, newest, prev, next);
      var x := oldest;
      var node := dirties[x];
      oldest := next[x];
      ChainForget(Without(l.order, 0), oldest, newest, prev, next, x);
      dirties, prev, next := dirties - {x}, prev - {x}, next - {x};
      ledger := l.(order := Without(l.order, 0), slack := Slackened(l.slack, HeldBy(node).All()));
      Discharge(node);
    }

    /** Takes what a node weighs off the running totals, as `Cap` does. */
    method Discharge(node: Entry)
      modifies this`dirtiesSize, this`childrenSize
      ensures dirtiesSize + childrenSize == old(dirtiesSize + childrenSize) - Weight(node)
    {
      dirtiesSize := dirtiesSize - (HASH_LENGTH + node.size);
      if node.children.Some? {
        childrenSize := childrenSize - (CHILDREN_SIZE + CHILD_SIZE * |Targets(node.children.value)|);
      }
    }

    /** The first loop of `Cap`: writes the oldest nodes until what remains fits, and says where it stopped. */
    method FlushOldest(limit: int) returns (ok: bool, at: Id, ghost k: nat)
      requires Valid()
      modifies this`disk, this`below
      ensures Valid() && Extends(old(disk), disk) && Grows(old(below), below) && k <= |ledger.order|
      ensures at == if k < |ledger.order| then ledger.order[k] else Meta
      ensures ok ==> Flushed(ledger.order, k, dirties, below) &&
                     (k == |ledger.order| || Left(dirties, ledger.order, k) + Drift() <= limit)
    {
      hide *;
      var size := SizeNow();
      at, k := oldest, 0;
      AtFirst();
      var batch: Storage := map[];
      ghost var staged: Below := map[];
      StagedNone(ledger.order, 0, dirties, disk.Keys, below, content);
      ExtendsSame(disk);
      GrowsSame(below);
      while size > limit && at != Meta
        invariant Valid() && Extends(old(disk), disk) && Grows(old(below), below) && k <= |ledger.order|
        invariant at == if k < |ledger.order| then ledger.order[k] else Meta
        invariant size == Left(dirties, ledger.order, k) + Drift()
        invariant Stageable(batch, staged, disk.Keys, content) && Staged(ledger.order, k, dirties, below, staged)
        decreases |ledger.order| - k
      {
        AtFacts(k);
        var node := dirties[at];
        StageNext(k, batch, staged);
        batch, staged := batch[at := node.blob], staged[at := HeldBy(node).All()];
        var full: bool := *;
        if full {
          ghost var stored, below0 := disk, below;
          ok := Write(batch, staged);
          ExtendsTrans(old(disk), stored, disk);
          GrowsTrans(old(below), below0, below);
          if !ok {
            return;
          }
          StagedWritten(ledger.order, k + 1, dirties, below0, staged);
          batch, staged := map[], map[];
          StagedNone(ledger.order, k + 1, dirties, disk.Keys, below, content);
        }
        WeightParts(node);
        size := size - (HASH_LENGTH + node.size + NODE_SIZE);
        if node.children.Some? {
          size := size - (CHILDREN_SIZE + CHILD_SIZE * |Targets(node.children.value)|);
        }
        at, k := next[at], k + 1;
      }
      if k < |ledger.order| {
        AtFacts(k);
      }
      ghost var stored, below0 := disk, below;
      ok := Write(batch, staged);
      ExtendsTrans(old(disk), stored, disk);
      GrowsTrans(old(below), below0, below);
      if ok {
        StagedWritten(ledger.order, k, dirties, below0, staged);
      }
    }

    /** `Size`, which `Cap` starts from. */
    method SizeNow() returns (w: int)
      requires Valid()
      ensures w == Left(dirties, ledger.order, 0) + Drift()
    {
      hide Sound, Burden, Total;
      SizeIs(dirties, ledger, disk.Keys, rank, dirtiesSize + childrenSize);
      assert ledger.order[0..] == ledger.order;
      w := dirtiesSize + childrenSize + (|dirties| - 1) * NODE_SIZE - CHILD_SIZE * |Targets(Outer(dirties[Meta]))|;
    }

    lemma AtFirst()
      requires Valid()
      ensures oldest == if 0 < |ledger.order| then ledger.order[0] else Meta
    {
      hide Sound;
    }

    lemma AtFacts(k: nat)
      requires Valid() && k < |ledger.order|
      ensures var x := ledger.order[k];
              x in dirties && x != Meta && x in next &&
              next[x] == (if k + 1 < |ledger.order| then ledger.order[k + 1] else Meta) &&
              Left(dirties, ledger.order, k) == Weight(dirties[x]) + NODE_SIZE + Left(dirties, ledger.order, k + 1)
    {
      hide Sound, Weight, Named;
      ListedBySound(dirties, ledger, disk.Keys, rank);
      assert ledger.order[k] in ledger.order;
      assert ledger.order[k..][1..] == ledger.order[k + 1..];
    }

    lemma StageNext(k: nat, batch: Storage, staged: Below)
      requires Valid() && k < |ledger.order| && ledger.order[k] in dirties
      requires Stageable(batch, staged, disk.Keys, content) && Staged(ledger.order, k, dirties, below, staged)
      ensures var x := ledger.order[k];
              var batch', staged' := batch[x := dirties[x].blob], staged[x := HeldBy(dirties[x]).All()];
              Stageable(batch', staged', disk.Keys, content) && Staged(ledger.order, k + 1, dirties, below, staged')
    {
      hide Sound, Chained, HeldBy, Stageable, Staged, Matches;
      ListedBySound(dirties, ledger, disk.Keys, rank);
      assert ledger.order[k] in ledger.order;
      HeldOlder(dirties, ledger, disk.Keys, rank, k);
      StageMore(ledger.order, k, dirties, below, disk, batch, staged, content);
    }

    /** The second loop of `Cap`. */
    method DropUntil(at: Id, ghost k: nat)
      requires Valid() && k <= |ledger.order| && Flushed(ledger.order, k, dirties, below)
      requires at == if k < |ledger.order| then ledger.order[k] else Meta
      modifies this
      ensures Valid() && disk == old(disk) && below == old(below) && Drift() == old(Drift())
      ensures ledger.order == old(ledger.order)[k..] && Kept(old(dirties), dirties, below)
    {
      hide *;
      ghost var d, order, i := dirties, ledger.order, 0;
      AtFirst();
      KeptSame(d, below);
      assert order[0..] == order;
      while oldest != at
        invariant Valid() && disk == old(disk) && below == old(below) && Drift() == old(Drift())
        invariant 0 <= i <= k && ledger.order == order[i..] && Kept(d, dirties, below)
        invariant oldest == if i < |order| then order[i] else Meta
        decreases k - i
      {
        NextFlushed(order, i, k, d, below, at);
        StoredKeys();
        ghost var d1 := dirties;
        KeptLast(d, below, order[i], d1);
        DropOldest();
        AtFirst();
        KeptLess(d, d1, order[i], below);
        i := i + 1;
      }
      if i < k {
        Different(order, i, k);
      }
    }

    lemma StoredKeys()
      requires Valid()
      ensures below.Keys == disk.Keys && Meta !in disk
    {
      hide Sound, Chained, Named;
    }

    /** The listed names are different from each other and from the meta-root. */
    lemma Different(order: seq<Id>, i: nat, k: nat)
      requires Valid() && i < k <= |order| && ledger.order == order[i..]
      ensures order[i] != if k < |order| then order[k] else Meta
    {
      hide Chained, StoredClosed, Named;
      ListedBySound(dirties, ledger, disk.Keys, rank);
      assert ledger.order[0] == order[i] && order[i] in ledger.order;
      if k < |order| {
        assert ledger.order[k - i] == order[k];
      }
    }

    /** `Cap`: writes out the oldest nodes until the reported size is at most `limit`. */
    method Cap(limit: int) returns (ok: bool)
      requires Valid()
      modifies this
      ensures Valid() && Extends(old(disk), disk) && Grows(old(below), below) && Drift() == old(Drift())
      ensures Kept(old(dirties), dirties, below)
      ensures ok ==> ledger.order == [] || Left(dirties, ledger.order, 0) + Drift() <= limit
    {
      hide *;
      var at: Id;
      ghost var k: nat;
      ok, at, k := FlushOldest(limit);
      KeptSame(dirties, below);
      if ok {
        Uncache(at, k);
      }
    }

    /** What was written leaves the cache. */
    method Uncache(at: Id, ghost k: nat)
      requires Valid() && k <= |ledger.order| && Flushed(ledger.order, k, dirties, below)
      requires at == if k < |ledger.order| then ledger.order[k] else Meta
      modifies this
      ensures Valid() && disk == old(disk) && below == old(below) && Drift() == old(Drift())
      ensures Kept(old(dirties), dirties, below)
      ensures k == |old(ledger.order)| ==> ledger.order == []
      ensures Left(dirties, ledger.order, 0) == old(Left(dirties, ledger.order, k))
    {
      hide *;
      ghost var d, order := dirties, ledger.order;
      DropUntil(at, k);
      LeftKept(d, order, k);
      ClearHead();
    }

    lemma LeftKept(d: Entries, order: seq<Id>, k: nat)
      requires Valid() && k <= |order| && ledger.order == order[k..] && Kept(d, dirties, below)
      ensures k == |order| ==> ledger.order == []
      ensures Left(dirties, ledger.order, 0) == Left(d, order, k)
    {
      hide *;
      Cached();
      LeftSame(d, dirties, order, k, ledger.order, below);
    }

    lemma Cached()
      requires Valid()
      ensures Listed(ledger.order, dirties)
    {
      hide Chained, StoredClosed, Named;
      ListedBySound(dirties, ledger, disk.Keys, rank);
    }

    /** The new oldest node loses its backward link. */
    method ClearHead()
      requires Valid()
      modifies this`prev
      ensures Valid()
    {
      hide Sound, StoredClosed, Named;
      if oldest != Meta {
        prev := prev[oldest := Meta];
      }
    }

    /* ---- Commit ---- */

    /** Replays a written batch into the cleaner. */
    method Replay(batch: Storage)
      requires Valid() && forall h :: h in batch ==> Recorded(h, dirties, below)
      modifies this
      ensures Valid() && disk == old(disk) && below == old(below) && Drift() == old(Drift())
      ensures Kept(old(dirties), dirties, below) && dirties.Keys == old(dirties.Keys) - batch.Keys
    {
      hide *;
      ghost var d := dirties;
      KeptSame(d, below);
      var left := batch.Keys;
      while left != {}
        invariant Valid() && disk == old(disk) && below == old(below) && Drift() == old(Drift())
        invariant left <= batch.Keys && Kept(d, dirties, below) && dirties.Keys == d.Keys - (batch.Keys - left)
      {
        var h :| h in left;
        ghost var d1 := dirties;
        KeptLast(d, below, h, d1);
        RecordedStored(h);
        Put(h);
        KeptLess(d, d1, h, below);
        left := left - {h};
      }
    }

    lemma RecordedStored(h: Id)
      requires Valid() && Recorded(h, dirties, below)
      ensures h in disk
    {
      hide Sound, Chained, Named, HeldBy;
    }

    /** `commit`: adds everything below `hash`, and then `hash`, to the batch, writing it out whenever it is full. */
    method CommitNode(hash: Id, batch: Storage, ghost staged: Below, ghost d0: Entries)
      returns (ok: bool, batch': Storage, ghost staged': Below)
      requires Valid() && hash != Meta && Batched(batch, staged) && Kept(d0, dirties, below) && Swept(d0, dirties, batch)
      modifies this
      ensures Valid() && Extends(old(disk), disk) && Kept(old(dirties), dirties, below) && Drift() == old(Drift())
      ensures Grows(old(below), below) && Kept(d0, dirties, below) && Swept(d0, dirties, batch')
      ensures Batched(batch', staged') && Carried(batch, batch', dirties, disk)
      ensures ok ==> Cleared(hash, dirties, batch')
      ensures ok && hash in old(dirties) ==> hash in disk || hash in batch'
      decreases rank(hash), 1
    {
      hide *;
      ok, batch', staged' := true, batch, staged;
      ghost var d, disk0, below0 := dirties, disk, below;
      ExtendsSame(disk);
      GrowsSame(below);
      KeptSame(dirties, below);
      CarriedSame(batch, dirties, disk);
      if hash !in dirties {
        ClearedBy(hash, dirties, batch);
        return;
      }
      var ids := CommitChilds(hash);
      var node := dirties[hash];
      ok, batch', staged' := CommitAll(hash, ids, batch, staged, d0);
      if !ok {
        return;
      }
      KeptAt(d, dirties, below, hash);
      AddTop(hash, node, batch', staged', ids, d0);
      CarriedMore(batch, batch', hash, node.blob, dirties, disk);
      batch', staged' := batch'[hash := node.blob], staged'[hash := HeldBy(node).All()];
      var full: bool := *;
      if full {
        ghost var d1, disk1, below1, batch1 := dirties, disk, below, batch';
        ok, batch', staged' := FlushBatch(batch', staged', d0);
        CommitTrans(d, d1, dirties, disk0, disk1, disk, below0, below1, below);
        CarriedTrans(batch, batch1, batch', d1, disk1, dirties, disk, below);
        ClearedStill(hash, d1, batch1, dirties, disk, batch', below);
      }
    }

    /** The batch can be written, and records what its nodes refer to. */
    ghost predicate Batched(batch: Storage, staged: Below)
      reads this
    {
      Stageable(batch, staged, disk.Keys, content) && Tracks(staged, dirties)
    }

    lemma AddTop(hash: Id, node: Entry, batch: Storage, staged: Below, ids: seq<Id>, d0: Entries)
      requires Valid() && Batched(batch, staged) && Kept(d0, dirties, below) && Swept(d0, dirties, batch)
      requires hash != Meta && Matches(node, content(hash)) && (hash in dirties ==> dirties[hash] == node)
      requires Covers(ids, HeldBy(node).All()) && Settled(ids, |ids|, dirties, disk, batch)
      ensures Batched(batch[hash := node.blob], staged[hash := HeldBy(node).All()])
      ensures Swept(d0, dirties, batch[hash := node.blob]) && Cleared(hash, dirties, batch[hash := node.blob])
    {
      hide Sound, Chained, StoredClosed, Named, Stageable, Tracks, Swept, Settled, HeldBy, Kept;
      StageTop(batch, staged, dirties, disk, hash, node, ids, content);
      TracksMore(staged, dirties, hash, node);
      SweptMore(d0, dirties, batch, hash, node, ids, below);
    }

    /** The references of a cached node, as `commit` goes through them. */
    method CommitChilds(hash: Id) returns (ids: seq<Id>)
      requires Valid() && hash in dirties && hash != Meta
      ensures Matches(dirties[hash], content(hash))
      ensures Descends(rank, ids, hash) && KnownIds(ids, dirties, disk) && Covers(ids, HeldBy(dirties[hash]).All())
    {
      hide *;
      HeldKnown(hash);
      ghost var outside: seq<Id>;
      ids, outside := Childs(dirties[hash]);
      ChildsSame(dirties[hash], outside);
      Outlined(rank, ids, HeldBy(dirties[hash]).All(), hash, dirties, disk);
    }

    lemma HeldKnown(hash: Id)
      requires Valid() && hash in dirties && hash != Meta
      ensures Matches(dirties[hash], content(hash))
      ensures forall c :: c in HeldBy(dirties[hash]).All() ==>
                c != Meta && rank(c) < rank(hash) && (c in dirties || c in disk)
    {
      hide Sound, Chained, StoredClosed, HeldBy, Matches;
      HeldFacts(dirties, ledger, disk.Keys, rank, hash);
      ListedBySound(dirties, ledger, disk.Keys, rank);
      var k :| 0 <= k < |ledger.order| && ledger.order[k] == hash;
      HeldOlder(dirties, ledger, disk.Keys, rank, k);
    }

    /** The loop of `commit` over the references of a node. */
    method CommitAll(hash: Id, ids: seq<Id>, batch: Storage, ghost staged: Below, ghost d0: Entries)
      returns (ok: bool, batch': Storage, ghost staged': Below)
      requires Valid() && Batched(batch, staged) && Kept(d0, dirties, below) && Swept(d0, dirties, batch)
      requires Descends(rank, ids, hash) && KnownIds(ids, dirties, disk)
      modifies this
      ensures Valid() && Extends(old(disk), disk) && Kept(old(dirties), dirties, below) && Drift() == old(Drift())
      ensures Grows(old(below), below) && Kept(d0, dirties, below) && Swept(d0, dirties, batch')
      ensures Batched(batch', staged') && Carried(batch, batch', dirties, disk)
      ensures ok ==> Settled(ids, |ids|, dirties, disk, batch')
      decreases rank(hash), 0
    {
      hide *;
      ok, batch', staged' := true, batch, staged;
      ghost var d, disk0, below0 := dirties, disk, below;
      ExtendsSame(disk);
      GrowsSame(below);
      KeptSame(dirties, below);
      CarriedSame(batch, dirties, disk);
      SettledNone(ids, dirties, disk, batch);
      for i := 0 to |ids|
        invariant ok && Valid() && Extends(disk0, disk) && Kept(d, dirties, below) && Drift() == old(Drift())
        invariant Grows(below0, below) && Kept(d0, dirties, below) && Swept(d0, dirties, batch')
        invariant Batched(batch', staged') && Carried(batch, batch', dirties, disk)
        invariant Settled(ids, i, dirties, disk, batch')
      {
        ghost var d1, disk1, below1, batch1 := dirties, disk, below, batch';
        DescendsAt(rank, ids, hash, i);
        StoredKeys();
        KnownAt(ids, i, d, disk0, d1, disk1, below1);
        ok, batch', staged' := CommitNode(ids[i], batch', staged', d0);
        CommitTrans(d, d1, dirties, disk0, disk1, disk, below0, below1, below);
        CarriedTrans(batch, batch1, batch', d1, disk1, dirties, disk, below);
        if !ok {
          return;
        }
        ExtendsAt(disk1, disk, ids[i]);
        SettledNext(ids, i, d1, disk1, batch1, dirties, disk, batch', below);
      }
    }

    /** Writes the batch and uncaches what it held. */
    method FlushBatch(batch: Storage, ghost staged: Below, ghost d0: Entries)
      returns (ok: bool, batch': Storage, ghost staged': Below)
      requires Valid() && Batched(batch, staged) && Kept(d0, dirties, below) && Swept(d0, dirties, batch)
      modifies this
      ensures Valid() && Extends(old(disk), disk) && Kept(old(dirties), dirties, below) && Drift() == old(Drift())
      ensures Grows(old(below), below) && Kept(d0, dirties, below) && Swept(d0, dirties, batch')
      ensures Batched(batch', staged') && Carried(batch, batch', dirties, disk)
      ensures ok ==> batch' == map[] && batch.Keys <= disk.Keys && dirties.Keys !! batch.Keys
      ensures !ok ==> batch' == batch && dirties == old(dirties)
    {
      hide *;
      batch', staged' := batch, staged;
      ghost var d, disk0, below0 := dirties, disk, below;
      KeptSame(dirties, below);
      CarriedSame(batch, dirties, disk);
      BatchedParts(batch, staged);
      ok := Write(batch, staged);
      if ok {
        assert batch.Keys <= disk.Keys;
        KeptSame(d, below);
        ExtendsSame(disk);
        GrowsSame(below);
        CommitTrans(d0, d, d, disk0, disk0, disk, below0, below0, below) by {
          ExtendsSame(disk0);
          GrowsSame(below0);
        }
        WrittenRecorded(batch, staged, below0);
        Replay(batch);
        CommitTrans(d0, d, dirties, disk0, disk, disk, below0, below, below) by {
          ExtendsSame(disk);
          GrowsSame(below);
        }
        batch', staged' := map[], map[];
        StagedNone([], 0, dirties, disk.Keys, below, content);
        TracksNone(dirties);
        BatchedBy(map[], map[]);
        CarriedOut(batch, dirties, disk);
        SweptOut(d0, d, batch, dirties, disk, below);
      } else {
        BatchedBy(batch, staged);
      }
    }

    lemma BatchedParts(batch: Storage, staged: Below)
      requires Batched(batch, staged)
      ensures Stageable(batch, staged, disk.Keys, content) && Tracks(staged, dirties) && staged.Keys == batch.Keys
    {
    }

    lemma BatchedBy(batch: Storage, staged: Below)
      requires Stageable(batch, staged, disk.Keys, content) && Tracks(staged, dirties)
      ensures Batched(batch, staged)
    {
    }

    lemma WrittenRecorded(batch: Storage, staged: Below, below0: Below)
      requires Tracks(staged, dirties) && below == Merged(below0, staged) && staged.Keys == batch.Keys
      ensures forall h :: h in batch ==> Recorded(h, dirties, below)
    {
      hide Recorded, Merged, Tracks;
      forall h | h in batch
        ensures Recorded(h, dirties, below)
      {
        TracksMerged(staged, dirties, below0, h);
      }
    }

    /**
     `Commit`: on success everything that could be reached from `root` among the cached
     nodes is stored and no longer cached; `root` is stored if it was known at all.
     */
    method Commit(root: Id) returns (ok: bool)
      requires Valid() && root != Meta
      modifies this
      ensures Valid() && Extends(old(disk), disk) && Kept(old(dirties), dirties, below) && Drift() == old(Drift())
      ensures Grows(old(below), below)
      ensures ok ==> root !in dirties && Gone(old(dirties), root, dirties, disk)
      ensures ok && (root in old(dirties) || root in old(disk)) ==> root in disk
    {
      hide *;
      StagedNone([], 0, dirties, disk.Keys, below, content);
      TracksNone(dirties);
      BatchedBy(map[], map[]);
      ghost var d, disk0, below0 := dirties, disk, below;
      KeptSame(d, below);
      SweptStart(d);
      var batch: Storage;
      ghost var staged: Below;
      ok, batch, staged := CommitNode(root, map[], map[], d);
      ExtendsAt(disk0, disk, root);
      if !ok {
        return;
      }
      ghost var d1, disk1, below1, batch1 := dirties, disk, below, batch;
      ok, batch, staged := FlushBatch(batch, staged, d);
      CommitTrans(d, d1, dirties, disk0, disk1, disk, below0, below1, below);
      ExtendsAt(disk1, disk, root);
      if ok {
        ClearedStill(root, d1, batch1, dirties, disk, batch, below);
        StoredKeys();
        SweptGone(d, root, dirties, disk, below);
      }
    }

    /* ---- Garbage collection is safe, and complete ---- */

    /** `c` is referred to by `h`, as it is cached or as it was stored. */
    ghost predicate RefersTo(h: Id, c: Id)
      reads this
    {
      (h in dirties && c in HeldBy(dirties[h]).All()) || (h in below && c in below[h])
    }

    /** Following references from the meta-root. */
    ghost predicate ReachedBy(path: seq<Id>)
      reads this
    {
      path != [] && RefersTo(Meta, path[0]) && forall i, j :: 0 <= i < j < |path| && j == i + 1 ==> RefersTo(path[i], path[j])
    }

    /** Every node that can be reached from the meta-root is cached or stored, with its content. */
    lemma ReachableAvailable(path: seq<Id>, k: nat)
      requires Valid() && ReachedBy(path) && k < |path|
      ensures path[k] in dirties || path[k] in disk
      ensures path[k] in dirties && path[k] != Meta ==> Matches(dirties[path[k]], content(path[k]))
      ensures path[k] in disk ==> disk[path[k]] == content(path[k]).blob
    {
      hide Sound, Chained, HeldBy;
      var h := if k == 0 then Meta else path[k - 1];
      assert RefersTo(h, path[k]) by {
        if k > 0 {
          assert RefersTo(path[k - 1], path[k]);
        }
      }
      if h in dirties && path[k] in HeldBy(dirties[h]).All() {
        if h == Meta {
          RootKnown(path[k]);
        } else {
          HeldKnown(h);
        }
      }
    }

    lemma RootKnown(c: Id)
      requires Valid() && Meta in dirties && c in HeldBy(dirties[Meta]).All()
      ensures c in dirties || c in disk
    {
      hide Sound, Chained, StoredClosed, Named;
      RootHeld(dirties, ledger, disk.Keys, rank, c);
    }

    /** If the counters are exact and none is zero, every cached node can be reached from the meta-root through cached nodes. */
    lemma {:induction false} CachedReachable(x: Id) returns (path: seq<Id>)
      requires Valid() && ExactCounts(dirties, ledger) && x in dirties && x != Meta
      ensures ReachedBy(path) && path[|path| - 1] == x && forall i :: 0 <= i < |path| ==> path[i] in dirties
      decreases Top(rank, ledger.order) - rank(x)
    {
      hide Sound, Chained, StoredClosed, Named, HeldBy;
      var h := Holder(dirties, ledger, disk.Keys, rank, x);
      if h == Meta {
        path := [x];
      } else {
        TopBound(rank, ledger.order, h);
        var above := CachedReachable(h);
        path := above + [x];
        assert RefersTo(h, x);
      }
    }
  }
}
