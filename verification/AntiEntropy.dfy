/** Bucketed Merkle trees for anti-entropy (anti_entropy.py): building a heap-shaped tree over any
    number of buckets, and comparing two of them. */
module AntiEntropyTrees {
  import opened Division
  import opened StringOrder
  import opened Wrappers

  /** A timestamp is a number, rendered without a colon. */
  type Stamp = s: string | ':' !in s witness "0"

  datatype VersionedValue = VersionedValue(timestamp: Stamp, value: string) {
    function Text(): string {
      timestamp + ":" + value
    }
  }

  type Store = map<string, VersionedValue>

  /** SHA-256 of a text, and MD5 of a key. */
  datatype Hashing = Hashing(h: string -> string, keyHash: string -> nat)

  datatype Entry = Entry(key: string, hash: string)

  datatype Error = ValueError

  function BucketOf(c: Hashing, n: nat, key: string): (b: nat)
    requires n > 0
    ensures b < n
  {
    c.keyHash(key) % n
  }

  ghost predicate AreApart(a: int, b: int, m: int, n: int) {
    a - b == m * n
  }

  /** Two keys share a bucket iff their hashes differ by a multiple of the number of buckets, and a hash
      below that number is the bucket. */
  lemma SameBucketIff(c: Hashing, n: nat, k: string, l: string)
    requires n > 0
    ensures BucketOf(c, n, k) == BucketOf(c, n, l) <==> exists m :: AreApart(c.keyHash(k), c.keyHash(l), m, n)
    ensures c.keyHash(k) < n ==> BucketOf(c, n, k) == c.keyHash(k)
  {
    var a, b := c.keyHash(k), c.keyHash(l);
    if a % n == b % n {
      Distributes(a / n, b / n, n);
      assert AreApart(a, b, a / n - b / n, n);
    }
    forall m | AreApart(a, b, m, n) ensures a % n == b % n {
      Distributes(m, -(b / n), n);
      DivisionIsUnique(a, b / n + m, b % n, n);
    }
    if a < n {
      DivisionIsUnique(a, 0, a, n);
    }
  }

  function EntryFor(c: Hashing, data: Store, key: string): Entry
    requires key in data
  {
    Entry(key, c.h(data[key].Text()))
  }

  /** What is fed to the hash of a bucket. */
  function BucketText(entries: seq<Entry>): string {
    if entries == [] then "" else BucketText(entries[..|entries| - 1]) + EntryText(entries[|entries| - 1])
  }

  function EntryText(e: Entry): string {
    e.key + ":" + e.hash
  }

  ghost predicate SortedByKey(entries: seq<Entry>) {
    forall i, j | 0 <= i < j < |entries| :: StringLess(entries[i].key, entries[j].key)
  }

  /** The entries of a store that fall into bucket b, before sorting and after. */
  ghost predicate HoldsBucket(c: Hashing, n: nat, data: Store, b: nat, entries: seq<Entry>)
    requires n > 0
  {
    forall e :: e in entries <==> e.key in data && BucketOf(c, n, e.key) == b && e == EntryFor(c, data, e.key)
  }

  ghost predicate BucketsHold(c: Hashing, n: nat, data: Store, buckets: map<nat, seq<Entry>>) {
    && n > 0
    && (forall b: nat :: b in buckets <==> b < n)
    && forall b | b in buckets :: HoldsBucket(c, n, data, b, buckets[b]) && SortedByKey(buckets[b])
  }

  /** Every entry is in the bucket of its key. */
  ghost predicate AreInPlace(c: Hashing, n: nat, buckets: map<nat, seq<Entry>>)
    requires n > 0
  {
    forall b, e: Entry | b in buckets && e in buckets[b] :: BucketOf(c, n, e.key) == b
  }

  // ----- A tree as a value -----

  datatype Tree = Tree(count: nat, data: Store, built: bool, buckets: map<nat, seq<Entry>>, tree: map<nat, string>) {
    /** A missing node counts as the empty hash. */
    function HashAt(i: nat): string {
      NodeAt(tree, i)
    }

    ghost predicate HasBuckets(c: Hashing) {
      BucketsHold(c, count, data, buckets)
    }

    /** Leaves at count .. 2 * count - 1, and every node above them the hash of its children. */
    ghost predicate HasNodes(c: Hashing) {
      && (forall b | b in buckets :: b + count in tree && tree[b + count] == c.h(BucketText(buckets[b])))
      && (forall i | 1 <= i < count :: i in tree && tree[i] == c.h(HashAt(2 * i) + HashAt(2 * i + 1)))
    }

    /** Built once from its store, or never built because there was nothing to build. */
    ghost predicate IsTree(c: Hashing) {
      HasBuckets(c) && if built then HasNodes(c) else data == map[] && tree == map[]
    }

    /** Built any number of times or never: every entry is in its bucket, and the hashes are those of what
        the buckets hold. */
    ghost predicate IsHashed(c: Hashing) {
      IsPlaced(c) && if built then HasNodes(c) else tree == map[] && forall b | b in buckets :: buckets[b] == []
    }

    ghost predicate IsPlaced(c: Hashing) {
      && count > 0
      && (forall b: nat :: b in buckets <==> b < count)
      && AreInPlace(c, count, buckets)
    }

    /** The strings hashed to build it. */
    ghost function Hashed(): set<string> {
      if !built then {} else ValueTexts() + BucketTexts() + ChildTexts()
    }

    ghost function ValueTexts(): set<string> {
      set k | k in data :: data[k].Text()
    }

    ghost function BucketTexts(): set<string> {
      set b | b in buckets :: BucketText(buckets[b])
    }

    ghost function ChildTexts(): set<string> {
      set i | i in tree && 1 <= i < count :: HashAt(2 * i) + HashAt(2 * i + 1)
    }
  }

  /** No collisions among the strings given, and hashes of one positive length. */
  ghost predicate CollisionFree(c: Hashing, strings: set<string>, length: nat) {
    length > 0 && forall x, y | x in strings && y in strings :: |c.h(x)| == length && (c.h(x) == c.h(y) ==> x == y)
  }

  /** Two stores agree on a bucket: the same keys with the same values. */
  ghost predicate Agree(c: Hashing, n: nat, a: Store, b: Store, bucket: nat)
    requires n > 0
  {
    forall k | BucketOf(c, n, k) == bucket :: (k in a <==> k in b) && (k in a && k in b ==> a[k] == b[k])
  }

  // ----- The heap of node numbers -----

  /** Node i lies on the way from a leaf up to the root. */
  ghost predicate Covers(i: nat, leaf: nat) {
    leaf == i || (leaf > i && Covers(i, leaf / 2))
  }

  /** Below an inner node, every leaf is on exactly one side, however many leaves there are. */
  lemma {:induction false} CoversSplits(i: nat, leaf: nat)
    requires 0 < i
    ensures leaf != i ==> (Covers(i, leaf) <==> Covers(2 * i, leaf) || Covers(2 * i + 1, leaf))
    ensures !(Covers(2 * i, leaf) && Covers(2 * i + 1, leaf))
    decreases leaf
  {
    if leaf > i {
      CoversSplits(i, leaf / 2);
    }
  }

  lemma {:induction false} RootCoversAll(leaf: nat)
    requires leaf > 0
    ensures Covers(1, leaf)
  {
    if leaf > 1 {
      RootCoversAll(leaf / 2);
    }
  }

  // ----- Buckets are determined by what they hold -----

  lemma {:induction false} SortedBucketIsUnique(p: seq<Entry>, q: seq<Entry>)
    requires SortedByKey(p) && SortedByKey(q) && forall e :: e in p <==> e in q
    ensures p == q
  {
    if p == [] {
      if q != [] {
        LeastEntry(q, p);
      }
    } else {
      LeastEntry(p, q);
      assert p == [p[0]] + p[1..] && q == [q[0]] + q[1..];
      forall e ensures e in p[1..] <==> e in q[1..] {
        FirstOnlyOnce(p);
        FirstOnlyOnce(q);
        assert e in p <==> e == p[0] || e in p[1..];
        assert e in q <==> e == q[0] || e in q[1..];
      }
      SortedBucketIsUnique(p[1..], q[1..]);
    }
  }

  lemma FirstOnlyOnce(p: seq<Entry>)
    requires p != [] && SortedByKey(p)
    ensures p[0] !in p[1..]
  {
    forall i | 0 <= i < |p[1..]| ensures p[1..][i] != p[0] {
      assert p[1..][i] == p[i + 1];
    }
  }

  lemma LeastEntry(p: seq<Entry>, q: seq<Entry>)
    requires SortedByKey(p) && SortedByKey(q) && p != [] && forall e :: e in p <==> e in q
    ensures q != [] && p[0] == q[0]
  {
    assert p[0] in p;
    assert p[0] in q;
    assert q[0] in q;
    assert q[0] in p;
    var i :| 0 <= i < |q| && q[i] == p[0];
    var j :| 0 <= j < |p| && p[j] == q[0];
    StringsAreOrdered(p[0].key, q[0].key, p[0].key);
  }

  function FirstColon(s: string): nat {
    if s == "" || s[0] == ':' then 0 else 1 + FirstColon(s[1..])
  }

  lemma {:induction false} FirstColonAfter(a: string, s: string)
    requires ':' !in a
    ensures FirstColon(a + ":" + s) == |a|
  {
    if a != "" {
      FirstColonAfter(a[1..], s);
      assert (a + ":" + s)[1..] == a[1..] + ":" + s;
    }
  }

  /** Texts that begin with a colon-free name and a colon split there. */
  lemma SplitAtColon(a: string, s: string, b: string, t: string)
    requires ':' !in a && ':' !in b && a + ":" + s == b + ":" + t
    ensures a == b && s == t
  {
    FirstColonAfter(a, s);
    FirstColonAfter(b, t);
    var x := a + ":" + s;
    assert a == x[..|a|] && b == (b + ":" + t)[..|b|];
    assert s == x[|a| + 1..] && t == (b + ":" + t)[|b| + 1..];
  }

  lemma TextsDetermineValues(u: VersionedValue, v: VersionedValue)
    requires u.Text() == v.Text()
    ensures u == v
  {
    SplitAtColon(u.timestamp, u.value, v.timestamp, v.value);
  }

  ghost predicate Readable(entries: seq<Entry>, length: nat) {
    forall i | 0 <= i < |entries| :: ':' !in entries[i].key && |entries[i].hash| == length
  }

  /** The text read from the front: a key, a colon, a hash. */
  lemma {:induction false} TextFromFront(entries: seq<Entry>)
    requires entries != []
    ensures BucketText(entries) == EntryText(entries[0]) + BucketText(entries[1..])
  {
    if |entries| > 1 {
      var init := entries[..|entries| - 1];
      TextFromFront(init);
      assert entries[1..][..|entries| - 2] == init[1..];
    }
  }

  lemma SameHeadSameEntry(e: Entry, s: string, f: Entry, t: string)
    requires ':' !in e.key && ':' !in f.key && |e.hash| == |f.hash| && EntryText(e) + s == EntryText(f) + t
    ensures e == f && s == t
  {
    var x, y := e.hash + s, f.hash + t;
    assert e.key + ":" + x == EntryText(e) + s;
    assert f.key + ":" + y == EntryText(f) + t;
    SplitAtColon(e.key, x, f.key, y);
    assert e.hash == x[..|e.hash|] == y[..|f.hash|] == f.hash;
    assert s == x[|e.hash|..] && t == y[|f.hash|..];
  }

  /** With colon-free keys and hashes of one length, a bucket's text determines its entries. */
  lemma {:induction false} TextDeterminesBucket(p: seq<Entry>, q: seq<Entry>, length: nat)
    requires Readable(p, length) && Readable(q, length) && BucketText(p) == BucketText(q)
    ensures p == q
  {
    if p != [] {
      TextFromFront(p);
    }
    if q != [] {
      TextFromFront(q);
    }
    if p != [] && q != [] {
      hide BucketText, EntryText;
      SameHeadSameEntry(p[0], BucketText(p[1..]), q[0], BucketText(q[1..]));
      TextDeterminesBucket(p[1..], q[1..], length);
    }
  }

  /** A key with a colon can pass for two entries: in one bucket, a store that maps it and a store
      that maps the two others have the same text, so no hash can tell them apart. */
  lemma ColonKeysAreAmbiguous(c: Hashing, x: VersionedValue, y: VersionedValue)
    ensures var hx, hy := c.h(x.Text()), c.h(y.Text());
            var one := [Entry("a:" + hx + "b", hy)];
            var two := [Entry("a", hx), Entry("b", hy)];
            && SortedByKey(one) && SortedByKey(two) && one != two && BucketText(one) == BucketText(two)
            && HoldsBucket(c, 1, map["a:" + hx + "b" := y], 0, one)
            && HoldsBucket(c, 1, map["a" := x, "b" := y], 0, two)
  {
    var hx, hy := c.h(x.Text()), c.h(y.Text());
    var one, two := [Entry("a:" + hx + "b", hy)], [Entry("a", hx), Entry("b", hy)];
    assert one[..0] == [] && two[..1] == [Entry("a", hx)] && two[..1][..0] == [];
    assert BucketText(two[..1]) == BucketText(two[..1][..0]) + EntryText(two[0]) == "a" + ":" + hx;
    assert BucketText(two) == ("a" + ":" + hx) + ("b" + ":" + hy);
    assert BucketText(one) == "a:" + hx + "b" + ":" + hy;
    assert BucketText(one) == BucketText(two);
    forall k | k == "a" || k == "b" || k == "a:" + hx + "b" ensures BucketOf(c, 1, k) == 0 {
      assert c.keyHash(k) % 1 == 0;
    }
    forall e ensures e in two <==> e.key in map["a" := x, "b" := y] && BucketOf(c, 1, e.key) == 0
                                   && e == EntryFor(c, map["a" := x, "b" := y], e.key)
    {
      assert e in two <==> e == two[0] || e == two[1];
    }
  }

  /** So two trees of one bucket over such stores have the same root, and their comparison finds
      nothing. */
  lemma ColonKeysFoolComparison(c: Hashing, u: Tree, v: Tree, x: VersionedValue, y: VersionedValue)
    requires u.IsTree(c) && v.IsTree(c) && u.count == 1 && v.count == 1
    requires u.data == map["a:" + c.h(x.Text()) + "b" := y] && v.data == map["a" := x, "b" := y]
    ensures u.data != v.data && u.HashAt(1) == v.HashAt(1) && !Legible(u, v)
  {
    var one := [Entry("a:" + c.h(x.Text()) + "b", c.h(y.Text()))];
    var two := [Entry("a", c.h(x.Text())), Entry("b", c.h(y.Text()))];
    ColonKeysAreAmbiguous(c, x, y);
    assert "a" in v.data && "b" in v.data && |v.data| == 2;
    OneBucket(c, u, one);
    OneBucket(c, v, two);
    assert u.buckets[0] != v.buckets[0];
  }

  lemma OneBucket(c: Hashing, u: Tree, entries: seq<Entry>)
    requires u.IsTree(c) && u.count == 1 && u.data != map[]
    requires HoldsBucket(c, 1, u.data, 0, entries) && SortedByKey(entries)
    ensures 0 in u.buckets && u.buckets[0] == entries && u.HashAt(1) == c.h(BucketText(entries))
  {
    assert 0 in u.buckets;
    SortedBucketIsUnique(u.buckets[0], entries);
    assert 0 + u.count in u.tree;
  }

  // ----- What equal and different hashes mean -----

  lemma SomeEntry(s: seq<Entry>)
    requires s != []
    ensures exists e :: e in s
  {
    assert s[0] in s;
  }

  lemma TreeIsHashed(c: Hashing, u: Tree)
    requires u.IsTree(c)
    ensures u.IsHashed(c)
  {
    hide BucketOf, Tree.HasNodes;
    forall b | b in u.buckets && !u.built ensures u.buckets[b] == [] {
      if u.buckets[b] != [] {
        SomeEntry(u.buckets[b]);
      }
    }
  }

  /** Two trees to be compared, where no hashes collide. */
  ghost predicate Comparable(c: Hashing, u: Tree, v: Tree, length: nat) {
    && u.IsHashed(c) && v.IsHashed(c) && u.count == v.count
    && CollisionFree(c, u.Hashed() + v.Hashed(), length)
  }

  /** No two different buckets at the same place have the same text. */
  ghost predicate Legible(u: Tree, v: Tree) {
    forall b | b in u.buckets && b in v.buckets && BucketText(u.buckets[b]) == BucketText(v.buckets[b]) ::
      u.buckets[b] == v.buckets[b]
  }

  lemma BucketTextIsHashed(u: Tree, b: nat)
    requires u.built && b in u.buckets
    ensures BucketText(u.buckets[b]) in u.Hashed()
  {
    hide BucketText, Tree.ValueTexts, Tree.ChildTexts;
    assert BucketText(u.buckets[b]) in u.BucketTexts();
  }

  lemma ChildTextIsHashed(u: Tree, i: nat)
    requires u.built && i in u.tree && 1 <= i < u.count
    ensures u.HashAt(2 * i) + u.HashAt(2 * i + 1) in u.Hashed()
  {
    hide Tree.ValueTexts, Tree.BucketTexts, NodeAt;
    assert u.HashAt(2 * i) + u.HashAt(2 * i + 1) in u.ChildTexts();
  }

  lemma NodeIsHash(c: Hashing, u: Tree, i: nat) returns (x: string)
    requires u.IsHashed(c) && u.built && 1 <= i < 2 * u.count
    ensures x in u.Hashed() && u.HashAt(i) == c.h(x)
    ensures i >= u.count ==> i - u.count in u.buckets
    ensures x == if i < u.count then u.HashAt(2 * i) + u.HashAt(2 * i + 1) else BucketText(u.buckets[i - u.count])
  {
    hide BucketText, HoldsBucket, SortedByKey, Tree.Hashed;
    if i < u.count {
      x := u.HashAt(2 * i) + u.HashAt(2 * i + 1);
      assert i in u.tree;
      ChildTextIsHashed(u, i);
    } else {
      var b: nat := i - u.count;
      assert b in u.buckets;
      x := BucketText(u.buckets[b]);
      BucketTextIsHashed(u, b);
    }
  }

  /** Equal hashes at an inner node mean equal hashes at both children. */
  lemma EqualHashesEqualChildren(c: Hashing, u: Tree, v: Tree, length: nat, i: nat)
    requires Comparable(c, u, v, length) && u.built && v.built
    requires 1 <= i < u.count && u.HashAt(i) == v.HashAt(i)
    ensures u.HashAt(2 * i) == v.HashAt(2 * i) && u.HashAt(2 * i + 1) == v.HashAt(2 * i + 1)
  {
    var x := NodeIsHash(c, u, i);
    var y := NodeIsHash(c, v, i);
    var p := NodeIsHash(c, u, 2 * i);
    var q := NodeIsHash(c, v, 2 * i);
    var strings := u.Hashed() + v.Hashed();
    assert x in strings && y in strings && p in strings && q in strings;
    assert u.HashAt(2 * i) == x[..length] == y[..length] == v.HashAt(2 * i);
    assert u.HashAt(2 * i + 1) == x[length..] == y[length..] == v.HashAt(2 * i + 1);
  }

  lemma {:induction false} EqualHashesEqualLeaves(c: Hashing, u: Tree, v: Tree, length: nat, i: nat, leaf: nat)
    requires Comparable(c, u, v, length) && u.built && v.built
    requires 1 <= i && u.count <= leaf < 2 * u.count && Covers(i, leaf) && u.HashAt(i) == v.HashAt(i)
    ensures u.HashAt(leaf) == v.HashAt(leaf)
    decreases leaf - i
  {
    hide Comparable, Tree.HashAt, Covers;
    if leaf != i {
      CoversAtMost(i, leaf);
      CoversIsBelow(i, leaf);
      EqualHashesEqualChildren(c, u, v, length, i);
      CoversSplits(i, leaf);
      if Covers(2 * i, leaf) {
        CoversIsBelow(2 * i, leaf);
        EqualHashesEqualLeaves(c, u, v, length, 2 * i, leaf);
      } else {
        CoversIsBelow(2 * i + 1, leaf);
        EqualHashesEqualLeaves(c, u, v, length, 2 * i + 1, leaf);
      }
    }
  }

  lemma CoversIsBelow(i: nat, leaf: nat)
    requires Covers(i, leaf)
    ensures i <= leaf
  {
  }

  /** A node above a leaf is an inner node: it is at most half the leaf's number. */
  lemma {:induction false} CoversAtMost(i: nat, leaf: nat)
    requires Covers(i, leaf) && i != leaf
    ensures 2 * i <= leaf
  {
    CoversIsBelow(i, leaf / 2);
  }

  lemma LeafCoversItself(i: nat, leaf: nat)
    requires leaf < 2 * i
    ensures Covers(i, leaf) <==> leaf == i
  {
    if Covers(i, leaf) && leaf != i {
      CoversAtMost(i, leaf);
    }
  }

  lemma NodeLength(c: Hashing, u: Tree, v: Tree, length: nat, i: nat)
    requires Comparable(c, u, v, length) && 1 <= i < 2 * u.count
    ensures |u.HashAt(i)| == if u.built then length else 0
    ensures |v.HashAt(i)| == if v.built then length else 0
  {
    var strings := u.Hashed() + v.Hashed();
    if u.built {
      var x := NodeIsHash(c, u, i);
      assert x in strings;
    }
    if v.built {
      var x := NodeIsHash(c, v, i);
      assert x in strings;
    }
  }

  /** The leaves of two built trees have equal hashes exactly when the buckets have equal texts. */
  lemma EqualLeavesEqualTexts(c: Hashing, u: Tree, v: Tree, length: nat, b: nat)
    requires Comparable(c, u, v, length) && u.built && v.built && b < u.count
    ensures b in u.buckets && b in v.buckets
    ensures u.HashAt(b + u.count) == v.HashAt(b + u.count) <==> BucketText(u.buckets[b]) == BucketText(v.buckets[b])
  {
    hide CollisionFree, BucketsHold, Tree.Hashed, Tree.HasNodes, NodeAt, BucketText;
    var x := NodeIsHash(c, u, b + u.count);
    var y := NodeIsHash(c, v, b + v.count);
    assert b + u.count - u.count == b;
    NoCollision(c, u.Hashed() + v.Hashed(), length, x, y);
  }

  lemma NoCollision(c: Hashing, strings: set<string>, length: nat, x: string, y: string)
    requires CollisionFree(c, strings, length) && x in strings && y in strings
    ensures c.h(x) == c.h(y) ==> x == y
  {
  }

  /** Agreement on a bucket means equal entries, whatever the hash. */
  lemma AgreeingBucketsEqual(c: Hashing, u: Tree, v: Tree, b: nat)
    requires u.HasBuckets(c) && v.HasBuckets(c) && u.count == v.count && b < u.count
    requires Agree(c, u.count, u.data, v.data, b)
    ensures b in u.buckets && b in v.buckets && u.buckets[b] == v.buckets[b]
  {
    hide BucketOf;
    assert b in u.buckets && b in v.buckets;
    forall e ensures e in u.buckets[b] <==> e in v.buckets[b] {
      assert e in u.buckets[b] <==>
          e.key in u.data && BucketOf(c, u.count, e.key) == b && e == EntryFor(c, u.data, e.key);
      assert e in v.buckets[b] <==>
          e.key in v.data && BucketOf(c, v.count, e.key) == b && e == EntryFor(c, v.data, e.key);
    }
    SortedBucketIsUnique(u.buckets[b], v.buckets[b]);
  }

  /** So its leaves have equal hashes. */
  lemma AgreeingLeavesEqual(c: Hashing, u: Tree, v: Tree, b: nat)
    requires u.IsTree(c) && v.IsTree(c) && u.count == v.count && u.built && v.built && b < u.count
    requires Agree(c, u.count, u.data, v.data, b)
    ensures u.HashAt(b + u.count) == v.HashAt(b + u.count)
  {
    hide BucketsHold, Agree, NodeAt, Tree.Hashed, BucketText, Tree.HasNodes;
    AgreeingBucketsEqual(c, u, v, b);
    TreeIsHashed(c, u);
    TreeIsHashed(c, v);
    var x := NodeIsHash(c, u, b + u.count);
    var y := NodeIsHash(c, v, b + v.count);
    assert b + u.count - u.count == b && b + v.count - v.count == b;
  }

  lemma ValueTextIsHashed(u: Tree, k: string)
    requires u.built && k in u.data
    ensures u.data[k].Text() in u.Hashed()
  {
    hide Tree.BucketTexts, Tree.ChildTexts;
    assert u.data[k].Text() in u.ValueTexts();
  }

  lemma SameEntrySameValue(c: Hashing, u: Tree, v: Tree, length: nat, k: string)
    requires Comparable(c, u, v, length) && u.IsTree(c) && v.IsTree(c)
    requires k in u.data && k in v.data && EntryFor(c, u.data, k) == EntryFor(c, v.data, k)
    ensures u.data[k] == v.data[k]
  {
    ValueTextIsHashed(u, k);
    ValueTextIsHashed(v, k);
    var strings := u.Hashed() + v.Hashed();
    assert u.data[k].Text() in strings && v.data[k].Text() in strings;
    TextsDetermineValues(u.data[k], v.data[k]);
  }

  /** Equal entries mean agreement. */
  lemma EqualBucketsAgree(c: Hashing, u: Tree, v: Tree, length: nat, b: nat)
    requires Comparable(c, u, v, length) && u.IsTree(c) && v.IsTree(c) && b < u.count
    requires b in u.buckets && b in v.buckets && u.buckets[b] == v.buckets[b]
    ensures Agree(c, u.count, u.data, v.data, b)
  {
    hide BucketOf;
    forall k | BucketOf(c, u.count, k) == b
      ensures (k in u.data <==> k in v.data) && (k in u.data && k in v.data ==> u.data[k] == v.data[k])
    {
      if k in u.data {
        assert EntryFor(c, u.data, k) in u.buckets[b];
      }
      if k in v.data {
        assert EntryFor(c, v.data, k) in v.buckets[b];
      }
      if k in u.data && k in v.data {
        SameEntrySameValue(c, u, v, length, k);
      }
    }
  }

  // ----- When the comparison is complete -----

  /** A key of a bucket on which the stores differ. */
  ghost predicate IsOwed(c: Hashing, n: nat, a: Store, b: Store, k: string)
    requires n > 0
  {
    (k in a || k in b) && !Agree(c, n, a, b, BucketOf(c, n, k))
  }

  ghost predicate HasKey(entries: seq<Entry>, k: string) {
    exists e :: e in entries && e.key == k
  }

  ghost predicate HeldByEither(u: Tree, v: Tree, b: nat, k: string) {
    b in u.buckets && b in v.buckets && (HasKey(u.buckets[b], k) || HasKey(v.buckets[b], k))
  }

  /** A key of a bucket, below a node, whose two leaves have different hashes. */
  ghost predicate IsReported(c: Hashing, u: Tree, v: Tree, i: nat, k: string)
    requires u.count > 0
  {
    var b := BucketOf(c, u.count, k);
    HeldByEither(u, v, b, k) && Covers(i, b + u.count) && u.HashAt(b + u.count) != v.HashAt(b + u.count)
  }

  ghost predicate TextsDiffer(c: Hashing, u: Tree, v: Tree, k: string)
    requires u.count > 0
  {
    var b := BucketOf(c, u.count, k);
    HeldByEither(u, v, b, k) && BucketText(u.buckets[b]) != BucketText(v.buckets[b])
  }

  lemma TextOfBucketWithKey(entries: seq<Entry>, k: string)
    requires HasKey(entries, k)
    ensures BucketText(entries) != ""
  {
    TextFromFront(entries);
  }

  lemma NoKeysUnlessBuilt(c: Hashing, u: Tree, b: nat, k: string)
    requires u.IsHashed(c) && !u.built && b in u.buckets
    ensures !HasKey(u.buckets[b], k) && BucketText(u.buckets[b]) == ""
  {
  }

  /** Whatever the hash, a reported key is in buckets with different texts. */
  lemma ReportedTextsDiffer(c: Hashing, u: Tree, v: Tree, i: nat, k: string)
    requires u.IsHashed(c) && v.IsHashed(c) && u.count == v.count && IsReported(c, u, v, i, k)
    ensures TextsDiffer(c, u, v, k)
  {
    hide BucketOf, Covers, BucketText, HasKey, Tree.IsHashed, Tree.HashAt;
    var b := BucketOf(c, u.count, k);
    if u.built && v.built {
      var x := NodeIsHash(c, u, b + u.count);
      var y := NodeIsHash(c, v, b + v.count);
      assert b + u.count - u.count == b;
    } else {
      if !u.built {
        NoKeysUnlessBuilt(c, u, b, k);
      }
      if !v.built {
        NoKeysUnlessBuilt(c, v, b, k);
      }
      if HasKey(u.buckets[b], k) {
        TextOfBucketWithKey(u.buckets[b], k);
      } else {
        TextOfBucketWithKey(v.buckets[b], k);
      }
    }
  }

  /** Who has a key of bucket b at all. */
  lemma KeysOfBucket(c: Hashing, u: Tree, b: nat, k: string)
    requires u.HasBuckets(c) && b < u.count
    ensures b in u.buckets
    ensures (k in u.data && BucketOf(c, u.count, k) == b) <==> HasKey(u.buckets[b], k)
  {
    if k in u.data && BucketOf(c, u.count, k) == b {
      assert EntryFor(c, u.data, k) in u.buckets[b];
    }
  }

  /** Of trees built once, a key of buckets with different texts is one on whose bucket the stores differ. */
  lemma DifferentTextIsOwed(c: Hashing, u: Tree, v: Tree, k: string)
    requires u.IsTree(c) && v.IsTree(c) && u.count == v.count && TextsDiffer(c, u, v, k)
    ensures IsOwed(c, u.count, u.data, v.data, k)
  {
    hide BucketOf, BucketText, HasKey, Agree, BucketsHold, Tree.HasNodes;
    var b := BucketOf(c, u.count, k);
    KeysOfBucket(c, u, b, k);
    KeysOfBucket(c, v, b, k);
    if Agree(c, u.count, u.data, v.data, b) {
      AgreeingBucketsEqual(c, u, v, b);
    }
  }

  /** From the root, exactly the keys of buckets with different texts are reported. */
  lemma ReportedIffTextsDiffer(c: Hashing, u: Tree, v: Tree, length: nat, k: string)
    requires Comparable(c, u, v, length)
    ensures IsReported(c, u, v, 1, k) <==> TextsDiffer(c, u, v, k)
  {
    if IsReported(c, u, v, 1, k) {
      ReportedTextsDiffer(c, u, v, 1, k);
    }
    if TextsDiffer(c, u, v, k) {
      DifferentTextReported(c, u, v, length, k);
    }
  }

  lemma DifferentTextReported(c: Hashing, u: Tree, v: Tree, length: nat, k: string)
    requires Comparable(c, u, v, length) && TextsDiffer(c, u, v, k)
    ensures IsReported(c, u, v, 1, k)
  {
    hide BucketOf, CollisionFree, BucketText, Covers, Tree.HashAt, HasKey, Tree.IsHashed;
    var b := BucketOf(c, u.count, k);
    RootCoversAll(b + u.count);
    NodeLength(c, u, v, length, b + u.count);
    LengthIsPositive(c, u, v, length);
    if u.built && v.built {
      EqualLeavesEqualTexts(c, u, v, length, b);
    } else if !u.built && !v.built {
      NoKeysUnlessBuilt(c, u, b, k);
      NoKeysUnlessBuilt(c, v, b, k);
    }
  }

  lemma LengthIsPositive(c: Hashing, u: Tree, v: Tree, length: nat)
    requires Comparable(c, u, v, length)
    ensures length > 0
  {
  }

  /** What the comparison reports is everything it owes exactly when different buckets have different
      texts. */
  lemma CompleteIffLegible(c: Hashing, u: Tree, v: Tree, length: nat)
    requires Comparable(c, u, v, length) && u.IsTree(c) && v.IsTree(c)
    ensures (forall k | IsOwed(c, u.count, u.data, v.data, k) :: TextsDiffer(c, u, v, k)) <==> Legible(u, v)
  {
    hide BucketText, BucketOf, CollisionFree, Tree.HasNodes, HasKey;
    if Legible(u, v) {
      forall k | IsOwed(c, u.count, u.data, v.data, k) ensures TextsDiffer(c, u, v, k) {
        var b := BucketOf(c, u.count, k);
        OwedBucketsDiffer(c, u, v, length, b);
        KeysOfBucket(c, u, b, k);
        KeysOfBucket(c, v, b, k);
      }
    }
    if forall k | IsOwed(c, u.count, u.data, v.data, k) :: TextsDiffer(c, u, v, k) {
      forall b | b in u.buckets && b in v.buckets && BucketText(u.buckets[b]) == BucketText(v.buckets[b])
        ensures u.buckets[b] == v.buckets[b]
      {
        SameTextNothingOwed(c, u, v, b);
        AgreeingBucketsEqual(c, u, v, b);
      }
    }
  }

  lemma OwedBucketsDiffer(c: Hashing, u: Tree, v: Tree, length: nat, b: nat)
    requires Comparable(c, u, v, length) && u.IsTree(c) && v.IsTree(c) && b < u.count
    requires !Agree(c, u.count, u.data, v.data, b)
    ensures b in u.buckets && b in v.buckets && u.buckets[b] != v.buckets[b]
  {
    hide Agree, CollisionFree;
    assert b in u.buckets && b in v.buckets;
    if u.buckets[b] == v.buckets[b] {
      EqualBucketsAgree(c, u, v, length, b);
    }
  }

  lemma SameTextNothingOwed(c: Hashing, u: Tree, v: Tree, b: nat)
    requires u.HasBuckets(c) && v.HasBuckets(c) && u.count == v.count && b < u.count
    requires b in u.buckets && b in v.buckets && BucketText(u.buckets[b]) == BucketText(v.buckets[b])
    requires forall k | IsOwed(c, u.count, u.data, v.data, k) :: TextsDiffer(c, u, v, k)
    ensures Agree(c, u.count, u.data, v.data, b)
  {
    hide BucketOf, BucketText, BucketsHold, Agree;
    forall k | BucketOf(c, u.count, k) == b ensures !IsOwed(c, u.count, u.data, v.data, k) {
      assert !TextsDiffer(c, u, v, k);
    }
    NothingOwedAgrees(c, u.count, u.data, v.data, b);
  }

  lemma NothingOwedAgrees(c: Hashing, n: nat, x: Store, y: Store, b: nat)
    requires n > 0 && forall k | BucketOf(c, n, k) == b :: !IsOwed(c, n, x, y, k)
    ensures Agree(c, n, x, y, b)
  {
    hide BucketOf;
    forall k | BucketOf(c, n, k) == b ensures (k in x <==> k in y) && (k in x && k in y ==> x[k] == y[k]) {
      assert !IsOwed(c, n, x, y, k);
    }
  }

  lemma EntriesOfBucket(c: Hashing, u: Tree, v: Tree, b: nat, length: nat)
    requires u.IsTree(c) && b < u.count && CollisionFree(c, u.Hashed() + v.Hashed(), length)
    requires forall k | k in u.data :: ':' !in k
    ensures b in u.buckets && Readable(u.buckets[b], length)
  {
    hide BucketOf, BucketText;
    assert b in u.buckets;
    forall i | 0 <= i < |u.buckets[b]| ensures ':' !in u.buckets[b][i].key && |u.buckets[b][i].hash| == length {
      var e := u.buckets[b][i];
      assert e in u.buckets[b];
      assert e == EntryFor(c, u.data, e.key);
      ValueTextIsHashed(u, e.key);
      assert u.data[e.key].Text() in u.Hashed() + v.Hashed();
    }
  }

  /** Where no key has a colon, the texts can be read back, so the comparison is complete. */
  lemma ColonFreeIsLegible(c: Hashing, u: Tree, v: Tree, length: nat)
    requires Comparable(c, u, v, length) && u.IsTree(c) && v.IsTree(c)
    requires forall k | k in u.data || k in v.data :: ':' !in k
    ensures Legible(u, v)
  {
    assert v.Hashed() + u.Hashed() == u.Hashed() + v.Hashed();
    hide CollisionFree, BucketText, Readable;
    forall b | b in u.buckets && b in v.buckets && BucketText(u.buckets[b]) == BucketText(v.buckets[b])
      ensures u.buckets[b] == v.buckets[b]
    {
      EntriesOfBucket(c, u, v, b, length);
      EntriesOfBucket(c, v, u, b, length);
      TextDeterminesBucket(u.buckets[b], v.buckets[b], length);
    }
  }

  // ----- Sorting a bucket -----

  function InsertByKey(s: seq<Entry>, e: Entry): seq<Entry> {
    if s == [] || StringLess(e.key, s[0].key) then [e] + s else [s[0]] + InsertByKey(s[1..], e)
  }

  function SortByKey(s: seq<Entry>): seq<Entry> {
    if s == [] then [] else InsertByKey(SortByKey(s[..|s| - 1]), s[|s| - 1])
  }

  /** Sorted by key, equal keys in any order. */
  ghost predicate WeaklySorted(s: seq<Entry>) {
    forall i, j | 0 <= i <= j < |s| :: StringLe(s[i].key, s[j].key)
  }

  lemma {:induction false} InsertKeepsEntries(s: seq<Entry>, e: Entry)
    ensures multiset(InsertByKey(s, e)) == multiset(s) + multiset{e}
  {
    if s != [] && !StringLess(e.key, s[0].key) {
      InsertKeepsEntries(s[1..], e);
      assert s == [s[0]] + s[1..];
    }
  }

  lemma {:induction false} InsertKeepsSorted(s: seq<Entry>, e: Entry)
    requires WeaklySorted(s)
    ensures WeaklySorted(InsertByKey(s, e))
  {
    if s != [] && !StringLess(e.key, s[0].key) {
      assert forall i | 0 <= i < |s[1..]| :: s[1..][i] == s[i + 1];
      InsertKeepsSorted(s[1..], e);
      var rest := InsertByKey(s[1..], e);
      forall i | 0 <= i < |rest| ensures StringLe(s[0].key, rest[i].key) {
        InsertKeepsEntries(s[1..], e);
        assert rest[i] in multiset(rest);
        StringsAreOrdered(s[0].key, e.key, s[0].key);
        if rest[i] != e {
          assert rest[i] in multiset(s[1..]);
          assert rest[i] in s[1..];
        }
      }
    } else {
      forall i | 0 <= i < |s| ensures StringLe(e.key, s[i].key) {
        StringsAreOrdered(e.key, s[0].key, s[i].key);
      }
    }
    StringsAreOrdered(e.key, e.key, e.key);
  }

  lemma {:induction false} SortSorts(s: seq<Entry>)
    ensures WeaklySorted(SortByKey(s)) && multiset(SortByKey(s)) == multiset(s)
  {
    if s != [] {
      var init, last := s[..|s| - 1], s[|s| - 1];
      SortSorts(init);
      InsertKeepsSorted(SortByKey(init), last);
      InsertKeepsEntries(SortByKey(init), last);
      assert s == init + [last];
    }
  }

  /** The entries of some keys that fall into bucket b. */
  function EntriesAmong(c: Hashing, n: nat, data: Store, keys: set<string>, b: nat): set<Entry>
    requires n > 0
  {
    set k | k in keys && k in data && BucketOf(c, n, k) == b :: EntryFor(c, data, k)
  }

  lemma OneMoreEntry(c: Hashing, n: nat, data: Store, keys: set<string>, k: string, b: nat)
    requires n > 0 && k in data && k !in keys
    ensures multiset(EntriesAmong(c, n, data, keys + {k}, b)) ==
            multiset(EntriesAmong(c, n, data, keys, b)) + if BucketOf(c, n, k) == b
                then multiset{EntryFor(c, data, k)} else multiset{}
  {
    hide BucketOf;
    var before, after := EntriesAmong(c, n, data, keys, b), EntriesAmong(c, n, data, keys + {k}, b);
    assert EntryFor(c, data, k) !in before;
    assert after == if BucketOf(c, n, k) == b then before + {EntryFor(c, data, k)} else before;
  }

  lemma OnceOnlyDistinct(s: seq<Entry>, i: nat, j: nat)
    requires i < j < |s| && multiset(s)[s[i]] <= 1
    ensures s[i] != s[j]
  {
    assert s == s[..i] + [s[i]] + s[i + 1..];
    assert s[i + 1..][j - i - 1] == s[j];
    assert multiset(s) == multiset(s[..i]) + multiset{s[i]} + multiset(s[i + 1..]);
  }

  /** A sorted listing of a store's entries, each once, is the bucket. */
  lemma SortedListingIsBucket(c: Hashing, n: nat, data: Store, b: nat, s: seq<Entry>)
    requires n > 0 && WeaklySorted(s) && multiset(s) == multiset(EntriesAmong(c, n, data, data.Keys, b))
    ensures HoldsBucket(c, n, data, b, s) && SortedByKey(s)
  {
    hide BucketOf, StringLe;
    var entries := EntriesAmong(c, n, data, data.Keys, b);
    forall e ensures e in s <==> e.key in data && BucketOf(c, n, e.key) == b && e == EntryFor(c, data, e.key) {
      assert e in s <==> e in multiset(s);
      assert e in multiset(entries) <==> e in entries;
    }
    forall i, j | 0 <= i < j < |s| ensures StringLess(s[i].key, s[j].key) {
      assert s[i] in s && s[j] in s;
      OnceOnlyDistinct(s, i, j);
    }
  }

  /** Every bucket holds what it held before, and the entries of some keys. */
  ghost predicate HasGathered(c: Hashing, n: nat, data: Store, keys: set<string>, before: map<nat, seq<Entry>>,
      after: map<nat, seq<Entry>>)
    requires n > 0
  {
    forall b | b in after :: b in before
        && multiset(after[b]) == multiset(before[b]) + multiset(EntriesAmong(c, n, data, keys, b))
  }

  ghost predicate IsSortedVersion(before: map<nat, seq<Entry>>, after: map<nat, seq<Entry>>) {
    forall b | b in after :: b in before && WeaklySorted(after[b]) && multiset(after[b]) == multiset(before[b])
  }

  /** The first n buckets sorted, the others as they were. */
  ghost predicate IsSortedUpTo(before: map<nat, seq<Entry>>, after: map<nat, seq<Entry>>, n: nat) {
    forall b | b in after ::
      b in before && if b < n then WeaklySorted(after[b]) && multiset(after[b]) == multiset(before[b])
          else after[b] == before[b]
  }

  lemma NothingSorted(buckets: map<nat, seq<Entry>>)
    ensures IsSortedUpTo(buckets, buckets, 0)
  {
  }

  lemma OneMoreSorted(before: map<nat, seq<Entry>>, after: map<nat, seq<Entry>>, n: nat)
    requires IsSortedUpTo(before, after, n) && n in after
    ensures IsSortedUpTo(before, after[n := SortByKey(after[n])], n + 1)
  {
    hide WeaklySorted, SortByKey;
    SortSorts(after[n]);
  }

  lemma AllSorted(before: map<nat, seq<Entry>>, after: map<nat, seq<Entry>>, n: nat)
    requires IsSortedUpTo(before, after, n) && forall b | b in after :: b < n
    ensures IsSortedVersion(before, after)
  {
  }

  lemma NothingGathered(c: Hashing, n: nat, data: Store, buckets: map<nat, seq<Entry>>)
    requires n > 0
    ensures HasGathered(c, n, data, {}, buckets, buckets)
  {
    forall b | b in buckets ensures EntriesAmong(c, n, data, {}, b) == {} {
    }
  }

  lemma OneMoreGathered(c: Hashing, n: nat, data: Store, keys: set<string>, k: string,
                        before: map<nat, seq<Entry>>, after: map<nat, seq<Entry>>)
    requires n > 0 && k in data && k !in keys && BucketOf(c, n, k) in after
    requires HasGathered(c, n, data, keys, before, after)
    ensures var b := BucketOf(c, n, k);
            HasGathered(c, n, data, keys + {k}, before, after[b := after[b] + [EntryFor(c, data, k)]])
  {
    hide BucketOf, EntriesAmong, EntryFor;
    forall b | b in after {
      OneMoreEntry(c, n, data, keys, k, b);
    }
  }

  lemma SortingKeepsGathered(c: Hashing, n: nat, data: Store, keys: set<string>,
                             before: map<nat, seq<Entry>>, middle: map<nat, seq<Entry>>, after: map<nat, seq<Entry>>)
    requires n > 0 && HasGathered(c, n, data, keys, before, middle) && IsSortedVersion(middle, after)
    ensures HasGathered(c, n, data, keys, before, after) && forall b | b in after :: WeaklySorted(after[b])
  {
    hide EntriesAmong, WeaklySorted;
  }

  /** What joins the buckets is in its place. */
  lemma GatheredIsPlaced(c: Hashing, n: nat, data: Store, before: map<nat, seq<Entry>>, after: map<nat, seq<Entry>>)
    requires n > 0 && HasGathered(c, n, data, data.Keys, before, after)
    requires AreInPlace(c, n, before)
    ensures AreInPlace(c, n, after)
  {
    hide BucketOf;
    forall b, e: Entry | b in after && e in after[b] ensures BucketOf(c, n, e.key) == b {
      assert e in multiset(after[b]);
      assert e in multiset(before[b]) || e in EntriesAmong(c, n, data, data.Keys, b);
    }
  }

  lemma GatheredHasEntry(c: Hashing, n: nat, data: Store, before: map<nat, seq<Entry>>, after: map<nat, seq<Entry>>,
                         k: string)
    requires n > 0 && HasGathered(c, n, data, data.Keys, before, after) && k in data && c.keyHash(k) % n in after
    ensures EntryFor(c, data, k) in after[c.keyHash(k) % n]
  {
    var b := c.keyHash(k) % n;
    assert EntryFor(c, data, k) in EntriesAmong(c, n, data, data.Keys, b);
    assert EntryFor(c, data, k) in multiset(after[b]);
  }

  lemma GatheredFromEmpty(c: Hashing, n: nat, data: Store, before: map<nat, seq<Entry>>, middle: map<nat, seq<Entry>>,
                          after: map<nat, seq<Entry>>)
    requires n > 0 && HasGathered(c, n, data, data.Keys, before, after) && IsSortedVersion(middle, after)
    requires (forall b | b in before :: before[b] == []) && forall b: nat :: b in after <==> b < n
    ensures BucketsHold(c, n, data, after)
  {
    hide EntriesAmong, WeaklySorted, HoldsBucket, SortedByKey;
    forall b | b in after ensures HoldsBucket(c, n, data, b, after[b]) && SortedByKey(after[b]) {
      SortedListingIsBucket(c, n, data, b, after[b]);
    }
  }

  // ----- Building in place -----

  function EmptyBuckets(n: nat): (buckets: map<nat, seq<Entry>>)
    ensures forall i: nat :: (i in buckets <==> i < n) && (i in buckets ==> buckets[i] == [])
  {
    if n == 0 then map[] else EmptyBuckets(n - 1)[n - 1 := []]
  }

  function NodeAt(tree: map<nat, string>, i: nat): string {
    if i in tree then tree[i] else ""
  }

  class MerkleTree {
    const hashing: Hashing
    const numBuckets: nat
    var buckets: map<nat, seq<Entry>>
    var bucketHashes: map<nat, string>
    var tree: map<nat, string>
    ghost var data: Store
    ghost var built: bool

    ghost function View(): Tree
      reads this
    {
      Tree(numBuckets, data, built, buckets, tree)
    }

    /** There is a list for every bucket. */
    ghost predicate HasShape()
      reads this
    {
      numBuckets > 0 && forall b: nat :: b in buckets <==> b < numBuckets
    }

    constructor (hashing: Hashing, data: Store, numBuckets: nat)
      requires numBuckets > 0
      ensures this.hashing == hashing && this.numBuckets == numBuckets && this.data == data && built == (data != map[])
      ensures HasShape() && View().IsTree(hashing)
    {
      this.hashing, this.numBuckets, this.data, built := hashing, numBuckets, map[], false;
      buckets := EmptyBuckets(numBuckets);
      bucketHashes, tree := map[], map[];
      new;
      if data != map[] {
        Build(data);
      }
    }

    /** `build`, once or again: the entries join what the buckets hold, every bucket is sorted, and all
        hashes are those of the buckets. A first build makes the tree of the store. */
    method Build(data: Store)
      requires HasShape()
      modifies this
      ensures HasShape() && this.data == data && built && View().HasNodes(hashing)
      ensures HasGathered(hashing, numBuckets, data, data.Keys, old(buckets), buckets)
      ensures forall b | b in buckets :: WeaklySorted(buckets[b])
      ensures forall k | k in data ::
                Entry(k, hashing.h(data[k].timestamp + ":" + data[k].value))
                    in buckets[hashing.keyHash(k) % numBuckets]
      ensures old(View().IsPlaced(hashing)) ==> View().IsHashed(hashing)
      ensures (forall b | b in old(buckets) :: old(buckets)[b] == []) ==> View().IsTree(hashing)
    {
      hide Tree.HasNodes, HasGathered, WeaklySorted, BucketText, BucketsHold, IsSortedVersion;
      ghost var before := buckets;
      this.data, built := data, true;
      AssignToBuckets(data);
      ghost var middle := buckets;
      HashBuckets();
      SortingKeepsGathered(hashing, numBuckets, data, data.Keys, before, middle, buckets);
      BuildUp();
      forall k | k in data ensures EntryFor(hashing, data, k) in buckets[hashing.keyHash(k) % numBuckets] {
        GatheredHasEntry(hashing, numBuckets, data, before, buckets, k);
      }
      if AreInPlace(hashing, numBuckets, before) {
        GatheredIsPlaced(hashing, numBuckets, data, before, buckets);
      }
      if forall b | b in before :: before[b] == [] {
        GatheredFromEmpty(hashing, numBuckets, data, before, middle, buckets);
      }
    }

    /** Step 1 of `build`: every key goes to its bucket, in whatever order the dictionary yields. */
    method AssignToBuckets(data: Store)
      requires HasShape()
      modifies this`buckets
      ensures HasShape() && HasGathered(hashing, numBuckets, data, data.Keys, old(buckets), buckets)
    {
      hide HasGathered, BucketOf, EntryFor;
      ghost var before := buckets;
      var left := data.Keys;
      assert data.Keys - left == {};
      NothingGathered(hashing, numBuckets, data, buckets);
      while left != {}
        invariant left <= data.Keys && HasShape()
        invariant HasGathered(hashing, numBuckets, data, data.Keys - left, before, buckets)
        decreases |left|
      {
        var key :| key in left;
        OneMoreGathered(hashing, numBuckets, data, data.Keys - left, key, before, buckets);
        assert data.Keys - (left - {key}) == data.Keys - left + {key};
        left := left - {key};
        var b := BucketOf(hashing, numBuckets, key);
        buckets := buckets[b := buckets[b] + [EntryFor(hashing, data, key)]];
      }
      assert data.Keys - left == data.Keys;
    }

    /** Step 2: every bucket is sorted and hashed. */
    method HashBuckets()
      requires HasShape()
      modifies this`buckets, this`bucketHashes
      ensures HasShape()
      ensures IsSortedVersion(old(buckets), buckets)
      ensures forall b | b in buckets :: b in bucketHashes && bucketHashes[b] == hashing.h(BucketText(buckets[b]))
    {
      hide BucketText, SortByKey, IsSortedUpTo;
      ghost var before := buckets;
      NothingSorted(buckets);
      for i := 0 to numBuckets
        invariant HasShape() && IsSortedUpTo(before, buckets, i)
        invariant forall b | b in buckets && b < i ::
            b in bucketHashes && bucketHashes[b] == hashing.h(BucketText(buckets[b]))
      {
        OneMoreSorted(before, buckets, i);
        buckets := buckets[i := SortByKey(buckets[i])];
        bucketHashes := bucketHashes[i := hashing.h(BucketText(buckets[i]))];
      }
      AllSorted(before, buckets, numBuckets);
    }

    /** Step 3: the leaves, and the nodes above them from the last to the root. */
    method BuildUp()
      requires HasShape()
      requires forall b | b in buckets :: b in bucketHashes && bucketHashes[b] == hashing.h(BucketText(buckets[b]))
      modifies this`tree
      ensures View().HasNodes(hashing)
      ensures forall i | 1 <= i < numBuckets ::
                i in tree && 2 * i in tree && 2 * i + 1 in tree && tree[i] == hashing.h(tree[2 * i] + tree[2 * i + 1])
    {
      hide BucketText, NodeAt, IsInner, Tree.HasNodes;
      for i := 0 to numBuckets
        invariant forall j | numBuckets <= j < numBuckets + i :: j in tree && tree[j] == bucketHashes[j - numBuckets]
      {
        tree := tree[numBuckets + i := bucketHashes[i]];
      }
      for i := numBuckets downto 1
        invariant forall j | numBuckets <= j < 2 * numBuckets :: j in tree && tree[j] == bucketHashes[j - numBuckets]
        invariant forall j | i <= j < numBuckets :: IsInner(tree, j)
      {
        var left, right := NodeAt(tree, 2 * i), NodeAt(tree, 2 * i + 1);
        InnerStays(tree, i, tree[i := hashing.h(left + right)], numBuckets);
        tree := tree[i := hashing.h(left + right)];
      }
      InnersMakeTree();
      ChildrenExist();
    }

    ghost predicate IsInner(nodes: map<nat, string>, j: nat) {
      j in nodes && nodes[j] == hashing.h(NodeAt(nodes, 2 * j) + NodeAt(nodes, 2 * j + 1))
    }

    /** Setting a node leaves those with greater numbers as they are. */
    lemma InnerStays(nodes: map<nat, string>, i: nat, nodes': map<nat, string>, n: nat)
      requires 1 <= i < n && nodes' == nodes[i := hashing.h(NodeAt(nodes, 2 * i) + NodeAt(nodes, 2 * i + 1))]
      requires forall j | i < j < n :: IsInner(nodes, j)
      ensures forall j | i <= j < n :: IsInner(nodes', j)
    {
      forall j | i <= j < n ensures IsInner(nodes', j) {
        assert j > i ==> IsInner(nodes, j);
      }
    }

    lemma InnersMakeTree()
      requires HasShape()
      requires forall j | numBuckets <= j < 2 * numBuckets ::
                 j in tree && tree[j] == hashing.h(BucketText(buckets[j - numBuckets]))
      requires forall j | 1 <= j < numBuckets :: IsInner(tree, j)
      ensures View().HasNodes(hashing)
    {
      hide BucketText, NodeAt;
      forall i | 1 <= i < numBuckets
          ensures i in tree && tree[i] == hashing.h(View().HashAt(2 * i) + View().HashAt(2 * i + 1)) {
        assert IsInner(tree, i);
      }
      forall b | b in buckets ensures b + numBuckets in tree
          && tree[b + numBuckets] == hashing.h(BucketText(buckets[b])) {
        var j := numBuckets + b;
        assert j in tree && b == j - numBuckets;
      }
    }

    /** No node above the leaves lacks a child, whatever the number of buckets. */
    lemma ChildrenExist()
      requires forall j | numBuckets <= j < 2 * numBuckets :: j in tree
      requires forall j | 1 <= j < numBuckets :: IsInner(tree, j)
      ensures forall i | 1 <= i < numBuckets ::
                i in tree && 2 * i in tree && 2 * i + 1 in tree && tree[i] == hashing.h(tree[2 * i] + tree[2 * i + 1])
    {
      forall j | 1 <= j < 2 * numBuckets ensures j in tree {
        assert j < numBuckets ==> IsInner(tree, j);
      }
      forall i | 1 <= i < numBuckets
        ensures i in tree && 2 * i in tree && 2 * i + 1 in tree && tree[i] == hashing.h(tree[2 * i] + tree[2 * i + 1])
      {
        assert IsInner(tree, i);
      }
    }

    lemma ViewHasNodes(i: nat)
      ensures View().count == numBuckets && View().buckets == buckets && View().HashAt(i) == NodeAt(tree, i)
    {
    }

    function GetRootHash(): string
      reads this
    {
      NodeAt(tree, 1)
    }
  }

  // ----- Comparing in place -----

  ghost predicate Distinct(s: seq<string>) {
    forall i, j | 0 <= i < j < |s| :: s[i] != s[j]
  }

  /** `list` of a set, in no particular order. */
  method ListOf(s: set<string>) returns (list: seq<string>)
    ensures Distinct(list) && forall k :: k in list <==> k in s
  {
    list := [];
    var left := s;
    while left != {}
      invariant left <= s && Distinct(list) && forall k :: k in list <==> k in s && k !in left
      decreases |left|
    {
      var k :| k in left;
      left := left - {k};
      list := list + [k];
    }
  }

  lemma EqualHashesNothingBelow(c: Hashing, u: Tree, v: Tree, length: nat, i: nat, k: string)
    requires Comparable(c, u, v, length) && 1 <= i < 2 * u.count && u.HashAt(i) == v.HashAt(i)
    ensures !IsReported(c, u, v, i, k)
  {
    hide BucketOf, Covers, NodeAt, Tree.HashAt, HasKey, Tree.IsHashed;
    NodeLength(c, u, v, length, i);
    LengthIsPositive(c, u, v, length);
    var b := BucketOf(c, u.count, k);
    if u.built && v.built {
      hide Comparable;
      if Covers(i, b + u.count) {
        EqualHashesEqualLeaves(c, u, v, length, i, b + u.count);
      }
    } else if HeldByEither(u, v, b, k) {
      NoKeysUnlessBuilt(c, u, b, k);
      NoKeysUnlessBuilt(c, v, b, k);
    }
  }

  /** The keys of two lists of entries, each once. */
  method KeysOfBoth(p: seq<Entry>, q: seq<Entry>) returns (keys: seq<string>)
    ensures Distinct(keys) && forall k :: k in keys <==> HasKey(p, k) || HasKey(q, k)
  {
    var localKeys := set e | e in p :: e.key;
    var remoteKeys := set e | e in q :: e.key;
    keys := ListOf(localKeys + remoteKeys);
  }

  /** At a leaf whose hashes differ, the keys of the two buckets are exactly what is reported. */
  lemma DifferentLeafReportsItsKeys(c: Hashing, u: Tree, v: Tree, i: nat, k: string)
    requires u.IsPlaced(c) && v.IsPlaced(c) && u.count == v.count
    requires u.count <= i < 2 * u.count && u.HashAt(i) != v.HashAt(i)
    ensures i - u.count in u.buckets && i - u.count in v.buckets
    ensures IsReported(c, u, v, i, k) <==>
            HasKey(u.buckets[i - u.count], k) || HasKey(v.buckets[i - u.count], k)
  {
    hide BucketOf, Covers, NodeAt, Tree.HashAt;
    LeafCoversItself(i, BucketOf(c, u.count, k) + u.count);
  }

  /** The recursion of `_compare_recursive`. For any hash, it adds keys only from leaves with different
      hashes; without collisions it adds all of those below the node. */
  method CompareRecursive(i: nat, local: MerkleTree, remote: MerkleTree, diffKeys: seq<string>, ghost length: nat)
      returns (diffKeys': seq<string>)
    requires local.hashing == remote.hashing
    requires local.View().IsHashed(local.hashing) && remote.View().IsHashed(local.hashing)
    requires local.numBuckets == remote.numBuckets && 1 <= i < 2 * local.numBuckets
    ensures AddsReport(local.hashing, local.View(), remote.View(), length, i, diffKeys, diffKeys')
    ensures local.View().HashAt(i) == remote.View().HashAt(i) ==> diffKeys' == diffKeys
    decreases 2 * local.numBuckets - i
  {
    hide *;
    ghost var c, u, v := local.hashing, local.View(), remote.View();
    TreesArePlaced(c, u, v);
    local.ViewHasNodes(i);
    remote.ViewHasNodes(i);
    var localHash := NodeAt(local.tree, i);
    var remoteHash := NodeAt(remote.tree, i);
    if localHash == remoteHash {
      NothingToReport(c, u, v, length, i, diffKeys);
      return diffKeys;
    }
    if i >= local.numBuckets {
      var b: nat := i - local.numBuckets;
      DifferentLeafReportsItsKeys(c, u, v, i, "");
      var keys := KeysOfBoth(local.buckets[b], remote.buckets[b]);
      LeafReport(c, u, v, length, i, diffKeys, keys);
      return diffKeys + keys;
    }
    var half := CompareRecursive(2 * i, local, remote, diffKeys, length);
    diffKeys' := CompareRecursive(2 * i + 1, local, remote, half, length);
    InnerNodeSplits(c, u, v, length, i, diffKeys, half, diffKeys');
  }

  /** A list grows by the report of a node. */
  ghost predicate AddsReport(c: Hashing, u: Tree, v: Tree, length: nat, i: nat, list: seq<string>, list': seq<string>)
  {
    u.count > 0 && list <= list' && IsReport(c, u, v, length, i, list'[|list|..])
  }

  /** A duplicate-free list of keys from leaves with different hashes below a node; without collisions,
      of all of them. */
  ghost predicate IsReport(c: Hashing, u: Tree, v: Tree, length: nat, i: nat, added: seq<string>)
    requires u.count > 0
  {
    && Distinct(added)
    && (forall k | k in added :: IsReported(c, u, v, i, k))
    && (Comparable(c, u, v, length) ==> forall k | IsReported(c, u, v, i, k) :: k in added)
  }

  lemma NothingToReport(c: Hashing, u: Tree, v: Tree, length: nat, i: nat, list: seq<string>)
    requires u.count > 0 && 1 <= i < 2 * u.count && u.HashAt(i) == v.HashAt(i)
    ensures AddsReport(c, u, v, length, i, list, list)
  {
    hide IsReported, Comparable;
    if Comparable(c, u, v, length) {
      forall k ensures !IsReported(c, u, v, i, k) {
        EqualHashesNothingBelow(c, u, v, length, i, k);
      }
    }
  }

  lemma LeafReport(c: Hashing, u: Tree, v: Tree, length: nat, i: nat, list: seq<string>, keys: seq<string>)
    requires u.IsPlaced(c) && v.IsPlaced(c) && u.count == v.count
    requires u.count <= i < 2 * u.count && u.HashAt(i) != v.HashAt(i)
    requires i - u.count in u.buckets && i - u.count in v.buckets
    requires Distinct(keys) && forall k :: k in keys <==>
        HasKey(u.buckets[i - u.count], k) || HasKey(v.buckets[i - u.count], k)
    ensures AddsReport(c, u, v, length, i, list, list + keys)
  {
    hide IsReported, Comparable, Tree.IsPlaced, HasKey, Tree.HashAt, Distinct;
    forall k ensures IsReported(c, u, v, i, k) <==> k in keys {
      DifferentLeafReportsItsKeys(c, u, v, i, k);
    }
    assert (list + keys)[|list|..] == keys;
  }

  lemma TreesArePlaced(c: Hashing, u: Tree, v: Tree)
    requires u.IsHashed(c) && v.IsHashed(c)
    ensures u.IsPlaced(c) && v.IsPlaced(c) && u.count > 0 && v.count > 0
  {
  }

  lemma ReportedOnOneSide(c: Hashing, u: Tree, v: Tree, i: nat, k: string)
    requires 1 <= i < u.count
    ensures IsReported(c, u, v, i, k) <==> IsReported(c, u, v, 2 * i, k) || IsReported(c, u, v, 2 * i + 1, k)
    ensures !(IsReported(c, u, v, 2 * i, k) && IsReported(c, u, v, 2 * i + 1, k))
  {
    hide BucketOf, Covers, NodeAt, Tree.HashAt;
    CoversSplits(i, BucketOf(c, u.count, k) + u.count);
  }

  lemma InnerNodeSplits(c: Hashing, u: Tree, v: Tree, length: nat, i: nat, list: seq<string>, half: seq<string>,
      all: seq<string>)
    requires 1 <= i < u.count
    requires AddsReport(c, u, v, length, 2 * i, list, half) && AddsReport(c, u, v, length, 2 * i + 1, half, all)
    ensures AddsReport(c, u, v, length, i, list, all)
  {
    hide IsReport;
    ReportsJoin(c, u, v, length, i, half[|list|..], all[|half|..]);
    assert all[|list|..] == half[|list|..] + all[|half|..];
  }

  lemma ReportsJoin(c: Hashing, u: Tree, v: Tree, length: nat, i: nat, left: seq<string>, right: seq<string>)
    requires 1 <= i < u.count && IsReport(c, u, v, length, 2 * i, left) && IsReport(c, u, v, length, 2 * i + 1, right)
    ensures IsReport(c, u, v, length, i, left + right)
  {
    hide IsReported, Comparable;
    forall k
      ensures IsReported(c, u, v, i, k) <==> IsReported(c, u, v, 2 * i, k) || IsReported(c, u, v, 2 * i + 1, k)
      ensures !(k in left && k in right)
    {
      ReportedOnOneSide(c, u, v, i, k);
    }
    assert forall j | 0 <= j < |left| :: left[j] in left;
    assert forall j | 0 <= j < |right| :: right[j] in right;
  }

  /** `compare_trees`: refused for different bucket counts. Otherwise, for any hash, no key twice and
      none from buckets with equal texts; without collisions, exactly the keys of the buckets with different
      texts. Of trees built once these are keys of buckets on which the stores differ, and without
      collisions all of them exactly when different buckets have different texts. */
  method CompareTrees(local: MerkleTree, remote: MerkleTree, ghost length: nat) returns (r: Result<seq<string>, Error>)
    requires local.hashing == remote.hashing
    requires local.View().IsHashed(local.hashing) && remote.View().IsHashed(local.hashing)
    ensures local.numBuckets > 0
    ensures r.Failure? <==> local.numBuckets != remote.numBuckets
    ensures r.Success? ==> Distinct(r.value)
    ensures r.Success? ==> forall k | k in r.value :: TextsDiffer(local.hashing, local.View(), remote.View(), k)
    ensures r.Success? && Comparable(local.hashing, local.View(), remote.View(), length) ==>
              forall k :: k in r.value <==> TextsDiffer(local.hashing, local.View(), remote.View(), k)
    ensures r.Success? && local.View().IsTree(local.hashing) && remote.View().IsTree(local.hashing) ==>
              forall k | k in r.value :: IsOwed(local.hashing, local.numBuckets, local.data, remote.data, k)
    ensures r.Success? && local.View().IsTree(local.hashing) && remote.View().IsTree(local.hashing)
            && Comparable(local.hashing, local.View(), remote.View(), length) ==>
              ((forall k | IsOwed(local.hashing, local.numBuckets, local.data, remote.data, k) :: k in r.value)
               <==> Legible(local.View(), remote.View()))
    ensures r.Success? && local.GetRootHash() == remote.GetRootHash() ==> r.value == []
  {
    ghost var c, u, v := local.hashing, local.View(), remote.View();
    TreesArePlaced(c, u, v);
    if local.numBuckets != remote.numBuckets {
      return Failure(ValueError);
    }
    hide Comparable, IsOwed, IsReported, Tree.IsTree, Tree.IsHashed, NodeAt, TextsDiffer, Legible, Distinct;
    var diffKeys := CompareRecursive(1, local, remote, [], length);
    assert diffKeys[0..] == diffKeys;
    forall k | k in diffKeys ensures TextsDiffer(c, u, v, k) {
      ReportedTextsDiffer(c, u, v, 1, k);
    }
    if Comparable(c, u, v, length) {
      forall k ensures k in diffKeys <==> TextsDiffer(c, u, v, k) {
        ReportedIffTextsDiffer(c, u, v, length, k);
      }
    }
    if u.IsTree(c) && v.IsTree(c) {
      forall k | k in diffKeys ensures IsOwed(c, local.numBuckets, local.data, remote.data, k) {
        DifferentTextIsOwed(c, u, v, k);
      }
      if Comparable(c, u, v, length) {
        CompleteIffLegible(c, u, v, length);
      }
    }
    return Success(diffKeys);
  }
}
