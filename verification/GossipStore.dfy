/** The gossip state store (state_store.py) and what pushing and pulling entries between stores
    converges to (gossip_node.py). */
module GossipStores {
  import opened StringOrder
  import opened Wrappers

  datatype Entry = Entry(key: string, value: Option<string>, version: int, timestamp: real, nodeId: string,
      tombstone: bool)

  type Store = map<string, Entry>

  /** e replaces f: a higher version, or the same version from a greater node id. */
  predicate Newer(e: Entry, f: Entry) {
    e.version > f.version || (e.version == f.version && StringLess(f.nodeId, e.nodeId))
  }

  lemma NewerOrder(e: Entry, f: Entry, g: Entry)
    ensures Newer(e, f) && Newer(f, g) ==> Newer(e, g)
    ensures Newer(e, f) && !Newer(g, f) ==> Newer(e, g)
    ensures !Newer(e, f) && !Newer(f, e) <==> e.version == f.version && e.nodeId == f.nodeId
  {
    StringsAreOrdered(e.nodeId, f.nodeId, g.nodeId);
    StringsAreOrdered(g.nodeId, f.nodeId, e.nodeId);
    StringsAreOrdered(f.nodeId, g.nodeId, e.nodeId);
    StringsAreOrdered(g.nodeId, e.nodeId, f.nodeId);
    StringsAreOrdered(f.nodeId, e.nodeId, g.nodeId);
    StringsAreOrdered(e.nodeId, g.nodeId, f.nodeId);
  }

  function Merged(s: Store, e: Entry): Store {
    if e.key !in s || Newer(e, s[e.key]) then s[e.key := e] else s
  }

  function MergedAll(s: Store, entries: seq<Entry>): Store {
    if entries == [] then s else Merged(MergedAll(s, entries[..|entries| - 1]), entries[|entries| - 1])
  }

  ghost predicate WellKeyed(s: Store) {
    forall k | k in s :: s[k].key == k
  }

  // ----- Joins -----

  /** t is the join of s and the entries: per key the newest there is, from one of the two. */
  ghost predicate IsJoin(s: Store, entries: set<Entry>, t: Store) {
    && (forall k | k in t :: t[k].key == k && (t[k] in entries || (k in s && t[k] == s[k])))
    && (forall k | k in s :: k in t && !Newer(s[k], t[k]))
    && (forall e | e in entries :: e.key in t && !Newer(e, t[e.key]))
  }

  /** One entry per key, version and node. */
  ghost predicate Unique(entries: set<Entry>) {
    forall e, f | e in entries && f in entries && e.key == f.key && e.version == f.version && e.nodeId == f.nodeId ::
        e == f
  }

  function Contents(s: Store): set<Entry> {
    set k | k in s :: s[k]
  }

  function Elements(entries: seq<Entry>): set<Entry> {
    set e | e in entries
  }

  /** Merging one by one, in whatever order and however often, computes a join. */
  lemma {:induction false} MergingJoins(s: Store, entries: seq<Entry>)
    requires WellKeyed(s)
    ensures IsJoin(s, Elements(entries), MergedAll(s, entries))
  {
    if entries == [] {
      forall k | k in s ensures !Newer(s[k], s[k]) {
        NewerOrder(s[k], s[k], s[k]);
      }
    } else {
      var init, e := entries[..|entries| - 1], entries[|entries| - 1];
      MergingJoins(s, init);
      assert Elements(entries) == Elements(init) + {e};
      OneMoreJoins(s, Elements(init), MergedAll(s, init), e);
    }
  }

  lemma OneMoreJoins(s: Store, entries: set<Entry>, t: Store, e: Entry)
    requires IsJoin(s, entries, t)
    ensures IsJoin(s, entries + {e}, Merged(t, e))
  {
    var u := Merged(t, e);
    forall k | k in s ensures k in u && !Newer(s[k], u[k]) {
      NewerOrder(s[k], e, t[k]);
      NewerOrder(e, t[k], s[k]);
      NewerOrder(s[k], t[k], e);
    }
    forall f | f in entries + {e} ensures f.key in u && !Newer(f, u[f.key]) {
      if f in entries {
        NewerOrder(e, t[f.key], f);
        NewerOrder(f, e, t[f.key]);
        NewerOrder(f, t[f.key], e);
      }
      NewerOrder(e, e, e);
    }
  }

  lemma JoinsAgree(s: Store, entries: set<Entry>, t: Store, u: Store)
    requires IsJoin(s, entries, t) && IsJoin(s, entries, u) && Unique(entries + Contents(s))
    ensures t == u
  {
    forall k ensures k in t <==> k in u {
    }
    forall k | k in t ensures t[k] == u[k] {
      assert !Newer(t[k], u[k]) && !Newer(u[k], t[k]);
      NewerOrder(t[k], u[k], t[k]);
      assert t[k] in entries + Contents(s) && u[k] in entries + Contents(s);
    }
  }

  /** e is newer than every other entry of its key, among the entries and in the store. */
  ghost predicate IsNewestOf(e: Entry, s: Store, entries: seq<Entry>) {
    && e in entries
    && (forall f | f in entries && f.key == e.key && f != e :: Newer(e, f))
    && (e.key in s ==> s[e.key] == e || Newer(e, s[e.key]))
  }

  /** Wherever in the list the newest entry comes, it is the one the store holds afterwards. */
  lemma NewestStays(s: Store, entries: seq<Entry>, e: Entry)
    requires WellKeyed(s) && IsNewestOf(e, s, entries)
    ensures e.key in MergedAll(s, entries) && MergedAll(s, entries)[e.key] == e
  {
    MergingJoins(s, entries);
    var held := MergedAll(s, entries)[e.key];
    NewerOrder(e, held, e);
  }

  /** Order and multiplicity do not matter: stores that merged the same entries are equal. */
  lemma SameEntriesSameStore(s: Store, p: seq<Entry>, q: seq<Entry>)
    requires WellKeyed(s) && Elements(p) == Elements(q) && Unique(Elements(p) + Contents(s))
    ensures MergedAll(s, p) == MergedAll(s, q)
  {
    MergingJoins(s, p);
    MergingJoins(s, q);
    JoinsAgree(s, Elements(p), MergedAll(s, p), MergedAll(s, q));
  }

  /** Two different entries of one key, version and node do no harm where another entry beats them, or
      the store holds one that they do not beat. */
  ghost predicate Settled(s: Store, entries: set<Entry>) {
    forall e, f | e in entries && f in entries && AreTwins(e, f) :: IsBeaten(s, entries, e)
  }

  predicate AreTwins(e: Entry, f: Entry) {
    e != f && e.key == f.key && e.version == f.version && e.nodeId == f.nodeId
  }

  ghost predicate IsBeaten(s: Store, entries: set<Entry>, e: Entry) {
    || (exists g | g in entries :: g.key == e.key && Newer(g, e))
    || (e.key in s && !Newer(e, s[e.key]))
  }

  /** Whatever the order and the repetitions, the entries lead from s to one store. */
  ghost predicate OrderIsIrrelevant(s: Store, entries: set<Entry>) {
    forall p, q | Elements(p) == entries && Elements(q) == entries :: MergedAll(s, p) == MergedAll(s, q)
  }

  /** A merge keeps the entry of a key or replaces it by a newer one. */
  lemma {:induction false} KeptOrNewer(s: Store, entries: seq<Entry>, k: string)
    requires k in s
    ensures var t := MergedAll(s, entries);
            k in t && (t[k] == s[k] || (t[k] in entries && Newer(t[k], s[k])))
  {
    if entries != [] {
      var init, e := entries[..|entries| - 1], entries[|entries| - 1];
      KeptOrNewer(s, init, k);
      NewerOrder(e, MergedAll(s, init)[k], s[k]);
    }
  }

  lemma {:induction false} MergingInTwo(s: Store, p: seq<Entry>, q: seq<Entry>)
    ensures MergedAll(s, p + q) == MergedAll(MergedAll(s, p), q)
  {
    if q == [] {
      assert p + q == p;
    } else {
      var n := |q| - 1;
      assert (p + q)[..|p + q| - 1] == p + q[..n];
      MergingInTwo(s, p, q[..n]);
    }
  }

  lemma {:induction false} Listing(entries: set<Entry>) returns (list: seq<Entry>)
    ensures Elements(list) == entries
  {
    if entries == {} {
      list := [];
    } else {
      var e :| e in entries;
      var rest := Listing(entries - {e});
      list := [e] + rest;
      assert forall f :: f in list <==> f == e || f in rest;
      assert forall f :: f in rest <==> f in Elements(rest);
    }
  }

  /** Of entries that nothing beats, the one that comes first stays. */
  lemma FirstStays(s: Store, entries: set<Entry>, e: Entry, list: seq<Entry>)
    requires e in entries && !IsBeaten(s, entries, e) && Elements(list) == entries
    requires WellKeyed(s)
    ensures Elements([e] + list) == entries
    ensures e.key in MergedAll(s, [e] + list) && MergedAll(s, [e] + list)[e.key] == e
  {
    assert forall f :: f in [e] + list <==> f == e || f in list;
    assert forall f :: f in list <==> f in Elements(list);
    MergingInTwo(s, [e], list);
    assert [e][..0] == [];
    assert MergedAll(s, [e]) == Merged(MergedAll(s, [e][..0]), e) == s[e.key := e];
    KeptOrNewer(s[e.key := e], list, e.key);
    MergingJoins(s, [e] + list);
  }

  lemma TwinsMakeADifference(s: Store, entries: set<Entry>, e: Entry, f: Entry)
    requires WellKeyed(s) && e in entries && f in entries && AreTwins(e, f) && !IsBeaten(s, entries, e)
    ensures !OrderIsIrrelevant(s, entries)
  {
    var list := Listing(entries);
    assert !IsBeaten(s, entries, f) by {
      forall g | g in entries && g.key == f.key ensures !Newer(g, f) {
        NewerOrder(g, f, e);
        NewerOrder(e, f, g);
      }
      if f.key in s {
        NewerOrder(f, e, s[f.key]);
        NewerOrder(e, f, s[f.key]);
        NewerOrder(e, s[f.key], f);
      }
    }
    FirstStays(s, entries, e, list);
    FirstStays(s, entries, f, list);
    assert MergedAll(s, [e] + list) != MergedAll(s, [f] + list);
  }

  lemma SettledAgree(s: Store, entries: set<Entry>, p: seq<Entry>, q: seq<Entry>, k: string)
    requires WellKeyed(s) && Settled(s, entries) && Elements(p) == entries && Elements(q) == entries
    ensures k in MergedAll(s, p) <==> k in MergedAll(s, q)
    ensures k in MergedAll(s, p) ==> MergedAll(s, p)[k] == MergedAll(s, q)[k]
  {
    MergingJoins(s, p);
    MergingJoins(s, q);
    var t, u := MergedAll(s, p), MergedAll(s, q);
    if k in t {
      if k in s {
        KeptOrNewer(s, p, k);
        KeptOrNewer(s, q, k);
        NewerOrder(u[k], t[k], s[k]);
        NewerOrder(t[k], u[k], s[k]);
      }
      assert !Newer(t[k], u[k]) && !Newer(u[k], t[k]);
      NewerOrder(t[k], u[k], t[k]);
      assert t[k] in entries && u[k] in entries && AreTwins(t[k], u[k]) ==> IsBeaten(s, entries, t[k]);
    }
  }

  /** The order in which entries are merged does not matter exactly when no two of them that share key,
      version and node are unbeaten. */
  lemma OrderIsIrrelevantIff(s: Store, entries: set<Entry>)
    requires WellKeyed(s)
    ensures OrderIsIrrelevant(s, entries) <==> Settled(s, entries)
  {
    if Settled(s, entries) {
      forall p, q | Elements(p) == entries && Elements(q) == entries ensures MergedAll(s, p) == MergedAll(s, q) {
        forall k ensures (k in MergedAll(s, p) <==> k in MergedAll(s, q))
                         && (k in MergedAll(s, p) ==> MergedAll(s, p)[k] == MergedAll(s, q)[k])
        {
          SettledAgree(s, entries, p, q, k);
        }
      }
    } else {
      var e, f :| e in entries && f in entries && AreTwins(e, f) && !IsBeaten(s, entries, e);
      TwinsMakeADifference(s, entries, e, f);
    }
  }

  /** Twins that only tie with the entry the store holds do no harm: it stays. */
  lemma TiedTwinsAreHarmless(held: Entry, e: Entry, f: Entry)
    requires held.key == e.key && held.version == e.version && held.nodeId == e.nodeId && AreTwins(e, f)
    ensures OrderIsIrrelevant(map[held.key := held], {e, f})
  {
    var s := map[held.key := held];
    NewerOrder(e, held, e);
    NewerOrder(f, held, f);
    OrderIsIrrelevantIff(s, {e, f});
  }

  /** A full push leaves the receiver at the join of both stores, and pushing back makes the two
      stores equal. */
  lemma PushJoins(s: Store, t: Store, p: seq<Entry>, q: seq<Entry>)
    requires WellKeyed(s) && WellKeyed(t) && Unique(Contents(s) + Contents(t))
    requires Elements(p) == Contents(t) && Elements(q) == Contents(MergedAll(s, p))
    ensures IsJoin(s, Contents(t), MergedAll(s, p)) && MergedAll(t, q) == MergedAll(s, p)
  {
    var u := MergedAll(s, p);
    MergingJoins(s, p);
    MergingJoins(t, q);
    JoinAbsorbs(s, t, u);
    hide IsJoin, Unique;
    JoinsAgree(t, Contents(u), MergedAll(t, q), u) by {
      UniqueSubset(Contents(u) + Contents(t), Contents(s) + Contents(t));
    }
  }

  lemma UniqueSubset(a: set<Entry>, b: set<Entry>)
    requires a <= b && Unique(b)
    ensures Unique(a)
  {
  }

  /** The join of two stores takes nothing from either, and adds nothing of its own. */
  lemma JoinAbsorbs(s: Store, t: Store, u: Store)
    requires WellKeyed(t) && IsJoin(s, Contents(t), u)
    ensures IsJoin(t, Contents(u), u) && Contents(u) <= Contents(s) + Contents(t)
  {
    assert forall k | k in u :: u[k] in Contents(u);
    assert forall k | k in t :: t[k] in Contents(t);
    forall e | e in Contents(u) ensures e.key in u && !Newer(e, u[e.key]) {
      NewerOrder(e, e, e);
    }
  }

  // ----- Digests -----

  function VersionIn(digest: map<string, int>, k: string): int {
    if k in digest then digest[k] else 0
  }

  /** What a peer answers to a digest. */
  function Delta(t: Store, digest: map<string, int>): set<Entry> {
    set k | k in t && t[k].version > VersionIn(digest, k) :: t[k]
  }

  function Digest(s: Store): map<string, int> {
    map k | k in s :: s[k].version
  }

  /** Pulling compares versions only. It reaches the join exactly when no key is held in equal
      versions of which the peer's comes from the greater node id. */
  lemma PullJoinsIff(s: Store, t: Store, p: seq<Entry>)
    requires WellKeyed(s) && WellKeyed(t) && (forall k | k in t :: t[k].version >= 1)
    requires Elements(p) == Delta(t, Digest(s))
    ensures IsJoin(s, Contents(t), MergedAll(s, p)) <==>
            forall k | k in s && k in t :: s[k].version == t[k].version ==> !StringLess(s[k].nodeId, t[k].nodeId)
  {
    var u, delta := MergedAll(s, p), Delta(t, Digest(s));
    MergingJoins(s, p);
    assert delta <= Contents(t);
    if forall k | k in s && k in t :: s[k].version == t[k].version ==> !StringLess(s[k].nodeId, t[k].nodeId) {
      forall e | e in Contents(t) ensures e.key in u && !Newer(e, u[e.key]) {
        if e !in delta {
          var k := e.key;
          assert k in t && t[k] == e && k in s && e.version <= s[k].version;
          NewerOrder(e, u[k], s[k]);
          assert !Newer(e, s[k]) && !Newer(s[k], u[k]);
        }
      }
    } else {
      var k :| k in s && k in t && s[k].version == t[k].version && StringLess(s[k].nodeId, t[k].nodeId);
      assert forall e | e in delta :: e.key != k;
      assert u[k] == s[k];
      assert t[k] in Contents(t) && Newer(t[k], u[k]);
    }
  }

  // ----- The store in place -----

  class StateStore {
    const nodeId: string
    var store: Store

    ghost predicate Valid()
      reads this
    {
      WellKeyed(store)
    }

    constructor (nodeId: string)
      ensures this.nodeId == nodeId && store == map[]
    {
      this.nodeId, store := nodeId, map[];
    }

    /** The value of the entry held, whichever node wrote it; nothing for a tombstone. */
    function Get(key: string): Option<string>
      reads this
    {
      if key in store && !store[key].tombstone then store[key].value else None
    }

    method Set(key: string, value: string, now: real) returns (entry: Entry)
      requires Valid()
      modifies this`store
      ensures Valid() && store == Merged(old(store), entry) && key in store && store[key] == entry
      ensures Get(key) == Some(value)
      ensures key in old(store) ==> Newer(entry, old(store)[key])
      ensures entry == WriteOf(old(store), key, Some(value), now, nodeId)
      ensures entry.version == if key in old(store) then old(store)[key].version + 1 else 1
    {
      var version := if key in store then store[key].version + 1 else 1;
      entry := Entry(key, Some(value), version, now, nodeId, false);
      store := store[key := entry];
    }

    method Delete(key: string, now: real) returns (entry: Option<Entry>)
      requires Valid()
      modifies this`store
      ensures Valid() && Get(key) == None
      ensures entry.None? <==> key !in old(store) || old(store)[key].tombstone
      ensures entry.None? ==> store == old(store)
      ensures entry.Some? ==> store == Merged(old(store), entry.value) && Newer(entry.value, old(store)[key])
                              && entry.value == WriteOf(old(store), key, None, now, nodeId)
                              && entry.value.version == old(store)[key].version + 1
    {
      if key !in store || store[key].tombstone {
        return None;
      }
      var e := Entry(key, None, store[key].version + 1, now, nodeId, true);
      store := store[key := e];
      return Some(e);
    }

    method Merge(entry: Entry) returns (applied: bool)
      requires Valid()
      modifies this`store
      ensures Valid() && store == Merged(old(store), entry)
      ensures applied <==> entry.key in old(store) ==>
                var held := old(store)[entry.key];
                entry.version > held.version
                || (entry.version == held.version && StringLess(held.nodeId, entry.nodeId))
      ensures Get(entry.key) == if !applied then old(Get(entry.key)) else if entry.tombstone then None else entry.value
      ensures forall k | k != entry.key :: Get(k) == old(Get(k))
    {
      if entry.key in store {
        var existing := store[entry.key];
        if entry.version > existing.version {
          store := store[entry.key := entry];
          return true;
        } else if entry.version == existing.version {
          if StringLess(existing.nodeId, entry.nodeId) {
            store := store[entry.key := entry];
            return true;
          }
        }
      } else {
        store := store[entry.key := entry];
        return true;
      }
      return false;
    }

    /** `_merge_entries`: the loop a push or a pull response runs on the receiver. */
    method MergeEntries(entries: seq<Entry>)
      requires Valid()
      modifies this`store
      ensures Valid() && store == MergedAll(old(store), entries)
      ensures forall e | IsNewestOf(e, old(store), entries) :: Get(e.key) == if e.tombstone then None else e.value
    {
      for i := 0 to |entries|
        invariant Valid() && store == MergedAll(old(store), entries[..i])
      {
        assert entries[..i + 1][..i] == entries[..i];
        var applied := Merge(entries[i]);
      }
      assert entries[..|entries|] == entries;
      forall e | IsNewestOf(e, old(store), entries) ensures Get(e.key) == if e.tombstone then None else e.value {
        NewestStays(old(store), entries, e);
      }
    }

    method GetAllEntries() returns (entries: seq<Entry>)
      ensures Elements(entries) == Contents(store)
    {
      entries := [];
      var left := store.Keys;
      while left != {}
        invariant left <= store.Keys
        invariant forall e :: e in entries <==> exists k :: k in store && k !in left && store[k] == e
        decreases |left|
      {
        var k :| k in left;
        left := left - {k};
        entries := entries + [store[k]];
      }
    }

    method GetDelta(digest: map<string, int>) returns (delta: seq<Entry>)
      ensures Elements(delta) == Delta(store, digest)
      ensures forall e :: e in delta <==>
                exists k :: k in store && store[k] == e && e.version > if k in digest then digest[k] else 0
    {
      delta := [];
      var left := store.Keys;
      while left != {}
        invariant left <= store.Keys
        invariant forall e :: e in delta <==>
            exists k :: k in store && k !in left && store[k] == e && e.version > VersionIn(digest, k)
        decreases |left|
      {
        var k :| k in left;
        left := left - {k};
        var peerVersion := VersionIn(digest, k);
        if store[k].version > peerVersion {
          delta := delta + [store[k]];
        }
      }
    }
  }

  /** The entry a node writes over what it holds. */
  function WriteOf(s: Store, key: string, value: Option<string>, now: real, nodeId: string): Entry {
    Entry(key, value, if key in s then s[key].version + 1 else 1, now, nodeId, value.None?)
  }

  // ----- Runs -----

  /** The stores by node id, what each node has written or merged, and every entry ever written. */
  datatype World = World(stores: map<string, Store>, seen: map<string, set<Entry>>, written: set<Entry>)

  datatype Step =
    | Write(node: string, key: string, value: Option<string>, now: real)
    | Receive(node: string, entry: Entry)

  function Wrote(w: World, node: string, e: Entry): World
    requires node in w.stores && node in w.seen
  {
    World(w.stores[node := Merged(w.stores[node], e)], w.seen[node := w.seen[node] + {e}], w.written + {e})
  }

  /** A node writes (deleting only what it holds alive), or merges an entry someone once wrote: it may
      arrive late, again, out of order or never. Nodes never restart. */
  ghost predicate Next(w: World, step: Step, w': World) {
    && step.node in w.stores && step.node in w.seen
    && match step
       case Write(i, k, v, t) =>
         && (v.None? ==> k in w.stores[i] && !w.stores[i][k].tombstone)
         && w' == Wrote(w, i, WriteOf(w.stores[i], k, v, t, i))
       case Receive(i, e) => e in w.written && w' == Wrote(w, i, e)
  }

  ghost predicate IsRun(run: seq<World>, steps: seq<Step>) {
    && |run| == |steps| + 1
    && run[0].stores.Keys == run[0].seen.Keys && run[0].written == {}
    && (forall i | i in run[0].stores :: run[0].stores[i] == map[] && run[0].seen[i] == {})
    && forall i | 0 <= i < |steps| :: Next(run[i], steps[i], run[i + 1])
  }

  /** A node's store is ahead of everything it has written. */
  ghost predicate IsAhead(node: string, s: Store, written: set<Entry>) {
    forall e | e in written && e.nodeId == node :: e.key in s && s[e.key].version >= e.version
  }

  ghost predicate WorldInv(w: World) {
    && Unique(w.written) && w.seen.Keys == w.stores.Keys
    && (forall e | e in w.written :: e.version >= 1)
    && forall i | i in w.stores :: NodeInv(i, w.stores[i], w.seen[i], w.written)
  }

  ghost predicate NodeInv(i: string, s: Store, seen: set<Entry>, written: set<Entry>) {
    seen <= written && IsJoin(map[], seen, s) && IsAhead(i, s, written)
  }

  /** What a node writes is new to the world. */
  lemma WriteIsNew(w: World, i: string, k: string, v: Option<string>, t: real)
    requires i in w.stores && WorldInv(w)
    ensures var e := WriteOf(w.stores[i], k, v, t, i);
            && e.version >= 1 && Unique(w.written + {e})
            && forall f | f in w.written && f.key == k && f.nodeId == i :: f.version < e.version
  {
    var s := w.stores[i];
    assert NodeInv(i, s, w.seen[i], w.written);
    if k in s {
      assert s[k] in w.seen[i];
    }
  }

  lemma MergedStaysAhead(i: string, s: Store, written: set<Entry>, e: Entry)
    requires IsAhead(i, s, written)
    ensures IsAhead(i, Merged(s, e), written)
  {
  }

  lemma WroteKeepsInv(w: World, i: string, e: Entry)
    requires i in w.stores && WorldInv(w) && e.version >= 1 && Unique(w.written + {e})
    requires e in w.written || (e.nodeId == i && (e.key !in w.stores[i] || e.version > w.stores[i][e.key].version))
    ensures WorldInv(Wrote(w, i, e))
  {
    hide IsJoin, Unique;
    var w' := Wrote(w, i, e);
    forall j | j in w'.stores ensures NodeInv(j, w'.stores[j], w'.seen[j], w'.written) {
      assert NodeInv(j, w.stores[j], w.seen[j], w.written);
      if j == i {
        OneMoreJoins(map[], w.seen[i], w.stores[i], e);
        MergedStaysAhead(i, w.stores[i], w.written, e);
      }
    }
  }

  lemma StepKeepsInv(w: World, step: Step, w': World)
    requires WorldInv(w) && Next(w, step, w')
    ensures WorldInv(w')
  {
    match step
    case Write(i, k, v, t) =>
      WriteIsNew(w, i, k, v, t);
      WroteKeepsInv(w, i, WriteOf(w.stores[i], k, v, t, i));
    case Receive(i, e) =>
      assert w.written + {e} == w.written;
      WroteKeepsInv(w, i, e);
  }

  lemma {:induction false} RunsKeepInv(run: seq<World>, steps: seq<Step>, i: nat)
    requires i < |run| && IsRun(run, steps)
    ensures WorldInv(run[i])
    decreases i
  {
    hide WorldInv, Next;
    if i == 0 {
      EmptyWorld(run[0]);
    } else {
      RunsKeepInv(run, steps, i - 1);
      assert Next(run[i - 1], steps[i - 1], run[i - 1 + 1]);
      StepKeepsInv(run[i - 1], steps[i - 1], run[i]);
    }
  }

  lemma EmptyWorld(w: World)
    requires w.stores.Keys == w.seen.Keys && w.written == {}
    requires forall i | i in w.stores :: w.stores[i] == map[] && w.seen[i] == {}
    ensures WorldInv(w)
  {
  }

  /** At any moment of any run, no two entries share key, version and node, and nodes that have seen
      the same entries hold the same store. */
  lemma SeenDeterminesStore(run: seq<World>, steps: seq<Step>, i: nat, a: string, b: string)
    requires i < |run| && IsRun(run, steps) && a in run[i].stores && b in run[i].stores
    ensures Unique(run[i].written) && a in run[i].seen && b in run[i].seen
    ensures run[i].seen[a] == run[i].seen[b] ==> run[i].stores[a] == run[i].stores[b]
  {
    RunsKeepInv(run, steps, i);
    var w := run[i];
    assert NodeInv(a, w.stores[a], w.seen[a], w.written) && NodeInv(b, w.stores[b], w.seen[b], w.written);
    if w.seen[a] == w.seen[b] {
      assert w.seen[a] + Contents(map[]) == w.seen[a];
      JoinsAgree(map[], w.seen[a], w.stores[a], w.stores[b]);
    }
  }

  /** In a run, a full push from a to b leaves b with what it would hold had it seen every entry a
      has seen. */
  lemma PushSharesAllSeen(run: seq<World>, steps: seq<Step>, i: nat, a: string, b: string, p: seq<Entry>,
      all: seq<Entry>)
    requires i < |run| && IsRun(run, steps) && a in run[i].stores && b in run[i].stores && a in run[i].seen
    requires b in run[i].seen
    requires Elements(p) == Contents(run[i].stores[a]) && Elements(all) == run[i].seen[a] + run[i].seen[b]
    ensures MergedAll(run[i].stores[b], p) == MergedAll(map[], all)
  {
    RunsKeepInv(run, steps, i);
    var w := run[i];
    var s, t := w.stores[a], w.stores[b];
    assert NodeInv(a, s, w.seen[a], w.written) && NodeInv(b, t, w.seen[b], w.written);
    MergingJoins(t, p);
    MergingJoins(map[], all);
    PushIsJoinOfSeen(w.seen[a], w.seen[b], s, t, MergedAll(t, p));
    assert Elements(all) + Contents(map[]) <= w.written;
    JoinsAgree(map[], Elements(all), MergedAll(t, p), MergedAll(map[], all));
  }

  lemma PushIsJoinOfSeen(seenA: set<Entry>, seenB: set<Entry>, s: Store, t: Store, u: Store)
    requires IsJoin(map[], seenA, s) && IsJoin(map[], seenB, t) && IsJoin(t, Contents(s), u)
    ensures IsJoin(map[], seenA + seenB, u)
  {
    forall e | e in seenA + seenB ensures e.key in u && !Newer(e, u[e.key]) {
      var k := e.key;
      if e in seenA {
        assert s[k] in Contents(s) && s[k].key == k;
        NewerOrder(e, u[k], s[k]);
        assert !Newer(e, s[k]) && !Newer(s[k], u[k]);
      } else {
        NewerOrder(e, u[k], t[k]);
        assert !Newer(e, t[k]) && !Newer(t[k], u[k]);
      }
    }
  }
}
