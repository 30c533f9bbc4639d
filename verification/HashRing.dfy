/** The consistent hash ring (consistent_hash.py): a sorted list of points, binary search and
    wrap-around, with the exact effect of adding and removing a node on every key. */
module HashRings {
  import opened StringOrder
  import opened Wrappers

  /** One virtual node: where it lies on the ring and whom it stands for. */
  datatype Point = Point(hash: int, node: string)

  /** What is fixed for the life of a ring. */
  datatype Config = Config(virtualNodes: int, weights: map<string, int>, hash: string -> int) {
    function VirtualCount(node: string): int {
      virtualNodes * if node in weights then weights[node] else 1
    }
  }

  function Decimal(n: nat): string {
    if n < 10 then [Digit(n)] else Decimal(n / 10) + [Digit(n % 10)]
  }

  function Digit(n: nat): char
    requires n < 10
  {
    "0123456789"[n]
  }

  // ----- The names that are hashed -----

  /** The number a row of digits stands for. */
  function ValueOf(digits: string): int {
    if digits == "" then 0 else 10 * ValueOf(digits[..|digits| - 1]) + (digits[|digits| - 1] as int - '0' as int)
  }

  /** A number is written in digits that read back as the number, without zeros in front. */
  lemma {:induction false} DecimalReadsBack(n: nat)
    ensures ValueOf(Decimal(n)) == n
    ensures Decimal(n) != "" && (forall ch | ch in Decimal(n) :: '0' <= ch <= '9')
    ensures n > 0 ==> Decimal(n)[0] != '0'
  {
    DigitReadsBack(n % 10);
    if n >= 10 {
      DecimalReadsBack(n / 10);
      assert Decimal(n)[..|Decimal(n)| - 1] == Decimal(n / 10);
    } else {
      assert Decimal(n)[..0] == "";
    }
  }

  lemma DigitReadsBack(d: nat)
    requires d < 10
    ensures Digit(d) as int - '0' as int == d && '0' <= Digit(d) <= '9' && (d > 0 ==> Digit(d) != '0')
  {
  }

  function LastColon(s: string): int {
    if s == "" then -1 else if s[|s| - 1] == ':' then |s| - 1 else LastColon(s[..|s| - 1])
  }

  lemma {:induction false} LastColonBefore(a: string, digits: string)
    requires ':' !in digits
    ensures LastColon(a + ":" + digits) == |a|
  {
    var s := a + ":" + digits;
    if digits == "" {
      assert s[|s| - 1] == ':';
    } else {
      var init := digits[..|digits| - 1];
      assert s[..|s| - 1] == a + ":" + init && s[|s| - 1] == digits[|digits| - 1];
      LastColonBefore(a, init);
    }
  }

  /** No name is hashed twice: not for one node, nor for two. */
  lemma VirtualNamesAreUnique(x: string, i: nat, y: string, j: nat)
    requires x + ":" + Decimal(i) == y + ":" + Decimal(j)
    ensures x == y && i == j
  {
    var s, t := x + ":" + Decimal(i), y + ":" + Decimal(j);
    DecimalReadsBack(i);
    DecimalReadsBack(j);
    LastColonBefore(x, Decimal(i));
    LastColonBefore(y, Decimal(j));
    assert x == s[..|x|] && y == t[..|y|];
    assert Decimal(i) == s[|x| + 1..] && Decimal(j) == t[|y| + 1..];
  }

  function VirtualPoint(c: Config, node: string, i: nat): Point {
    Point(c.hash(node + ":" + Decimal(i)), node)
  }

  // ----- The order on points: hash first, then name, as tuples compare -----

  predicate Le(p: Point, q: Point) {
    p.hash < q.hash || (p.hash == q.hash && StringLe(p.node, q.node))
  }

  lemma PointOrder(p: Point, q: Point, r: Point)
    ensures Le(p, q) || Le(q, p)
    ensures Le(p, q) && Le(q, p) ==> p == q
    ensures Le(p, q) && Le(q, r) ==> Le(p, r)
  {
    StringsAreOrdered(p.node, q.node, r.node);
  }

  ghost predicate Sorted(ring: seq<Point>) {
    forall i, j | 0 <= i <= j < |ring| :: Le(ring[i], ring[j])
  }

  // ----- What a ring is -----

  /** The first n points of a node, as a multiset: hashes may collide. */
  ghost function PointsUpTo(c: Config, node: string, n: int): (points: multiset<Point>)
    ensures forall p | p in points :: p.node == node
  {
    if n <= 0 then multiset{} else PointsUpTo(c, node, n - 1) + multiset{VirtualPoint(c, node, n - 1)}
  }

  ghost function PointsOf(c: Config, node: string): multiset<Point> {
    PointsUpTo(c, node, c.VirtualCount(node))
  }

  /** The ring of a set of members: all their points, in order. */
  ghost predicate IsRing(c: Config, nodes: set<string>, ring: seq<Point>) {
    && Sorted(ring)
    && forall p :: multiset(ring)[p] == if p.node in nodes then PointsOf(c, p.node)[p] else 0
  }

  lemma LeastIsFirst(r1: seq<Point>, r2: seq<Point>)
    requires r1 != [] && r2 != [] && Sorted(r1) && Sorted(r2) && multiset(r1) == multiset(r2)
    ensures r1[0] == r2[0]
  {
    hide Le;
    assert r1[0] in multiset(r2) && r2[0] in multiset(r1);
    assert r1[0] in r2 && r2[0] in r1;
    PointOrder(r1[0], r2[0], r1[0]);
  }

  lemma TailMultiset(r: seq<Point>)
    requires r != []
    ensures r == [r[0]] + r[1..] && multiset(r[1..]) == multiset(r) - multiset{r[0]}
  {
    assert r == [r[0]] + r[1..];
  }

  /** Two sorted lists of the same points are the same list. */
  lemma {:induction false} SortedIsUnique(r1: seq<Point>, r2: seq<Point>)
    requires Sorted(r1) && Sorted(r2) && multiset(r1) == multiset(r2)
    ensures r1 == r2
  {
    hide Le;
    if r1 == [] {
      assert |multiset(r2)| == 0;
    } else {
      assert |multiset(r2)| > 0;
      LeastIsFirst(r1, r2);
      TailMultiset(r1);
      TailMultiset(r2);
      assert Sorted(r1[1..]) && Sorted(r2[1..]);
      SortedIsUnique(r1[1..], r2[1..]);
    }
  }

  /** History does not matter: the members determine the ring. */
  lemma MembersDetermineRing(c: Config, nodes: set<string>, r1: seq<Point>, r2: seq<Point>)
    requires IsRing(c, nodes, r1) && IsRing(c, nodes, r2)
    ensures r1 == r2
  {
    assert forall p :: multiset(r1)[p] == multiset(r2)[p];
    assert multiset(r1) == multiset(r2);
    SortedIsUnique(r1, r2);
  }

  /** How many positions of the ring belong to a node. */
  function CountOf(ring: seq<Point>, node: string): nat {
    |Positions(ring, node)|
  }

  function Positions(ring: seq<Point>, node: string): set<nat> {
    set i | 0 <= i < |ring| && ring[i].node == node
  }

  /** Every member has as many points as its weight times the number of virtual nodes, the weight being 1
      where none is given, and nobody else has any; a negative product gives none. */
  lemma PointsByWeight(c: Config, nodes: set<string>, ring: seq<Point>, x: string)
    requires IsRing(c, nodes, ring)
    ensures var weight := if x in c.weights then c.weights[x] else 1;
            CountOf(ring, x) == if x in nodes && c.virtualNodes * weight > 0 then c.virtualNodes * weight else 0
  {
    var own := if x in nodes then PointsOf(c, x) else multiset{};
    hide Sorted, PointsOf;
    forall p ensures own[p] == if p.node == x then multiset(ring)[p] else 0 {
      PointsAreOwn(c, x, p);
    }
    CountIsCardinality(ring, x, own);
    PointsUpToCount(c, x, c.VirtualCount(x));
    PointsOfIs(c, x);
  }

  lemma PointsOfIs(c: Config, x: string)
    ensures PointsOf(c, x) == PointsUpTo(c, x, c.VirtualCount(x))
  {
  }

  lemma PointsAreOwn(c: Config, x: string, p: Point)
    ensures p.node != x ==> PointsOf(c, x)[p] == 0
  {
  }

  lemma {:induction false} PointsUpToCount(c: Config, x: string, n: int)
    ensures |PointsUpTo(c, x, n)| == if n > 0 then n else 0
  {
    if n > 0 {
      PointsUpToCount(c, x, n - 1);
    }
  }

  lemma {:induction false} CountIsCardinality(ring: seq<Point>, x: string, own: multiset<Point>)
    requires forall p :: own[p] == if p.node == x then multiset(ring)[p] else 0
    ensures CountOf(ring, x) == |own|
  {
    hide CountOf;
    if ring == [] {
      EmptyCount(x);
      assert own == multiset{};
    } else {
      var init, last := ring[..|ring| - 1], ring[|ring| - 1];
      assert ring == init + [last];
      LastPosition(init, last, x);
      var rest := if last.node == x then own - multiset{last} else own;
      forall p ensures rest[p] == if p.node == x then multiset(init)[p] else 0 {
        assert multiset(ring)[p] == multiset(init)[p] + if p == last then 1 else 0;
      }
      CountIsCardinality(init, x, rest);
      assert last.node == x ==> own[last] > 0;
    }
  }

  lemma EmptyCount(x: string)
    ensures CountOf([], x) == 0
  {
  }

  lemma LastPosition(init: seq<Point>, last: Point, x: string)
    ensures CountOf(init + [last], x) == CountOf(init, x) + if last.node == x then 1 else 0
  {
    var all := Positions(init + [last], x);
    assert all == if last.node == x then Positions(init, x) + {|init|} else Positions(init, x);
  }

  // ----- Lookups as functions of the ring -----

  /** How many leading points are at most x. */
  function FirstAfter(ring: seq<Point>, x: Point): (k: nat)
    ensures k <= |ring|
  {
    if ring == [] || !Le(ring[0], x) then 0 else 1 + FirstAfter(ring[1..], x)
  }

  ghost predicate Splits(ring: seq<Point>, x: Point, k: nat) {
    && k <= |ring|
    && (forall i | 0 <= i < k :: Le(ring[i], x))
    && (forall i | k <= i < |ring| :: !Le(ring[i], x))
  }

  lemma {:induction false} FirstAfterSplits(ring: seq<Point>, x: Point)
    requires Sorted(ring)
    ensures Splits(ring, x, FirstAfter(ring, x))
  {
    if ring != [] && Le(ring[0], x) {
      assert forall i | 0 <= i < |ring[1..]| :: ring[1..][i] == ring[i + 1];
      FirstAfterSplits(ring[1..], x);
      var k := FirstAfter(ring[1..], x);
      forall i | 0 <= i < |ring| ensures i < 1 + k <==> Le(ring[i], x) {
        assert i > 0 ==> ring[i] == ring[1..][i - 1];
      }
    } else {
      forall i | 0 <= i < |ring| ensures !Le(ring[i], x) {
        PointOrder(ring[0], ring[i], x);
      }
    }
  }

  lemma {:induction false} SplitIsFirstAfter(ring: seq<Point>, x: Point, k: nat)
    requires Splits(ring, x, k)
    ensures k == FirstAfter(ring, x)
  {
    hide Le;
    if k > 0 {
      assert Le(ring[0], x);
      assert forall i | 0 <= i < |ring[1..]| :: ring[1..][i] == ring[i + 1];
      SplitIsFirstAfter(ring[1..], x, k - 1);
    }
  }

  /** The points in the order a lookup meets them, once round the ring. */
  function Rotation(ring: seq<Point>, h: int): seq<Point> {
    var k := FirstAfter(ring, Point(h, ""));
    ring[k..] + ring[..k]
  }

  /** The names of the points, each where it first occurs. */
  function FirstNames(points: seq<Point>): seq<string> {
    if points == [] then []
    else
      var names, last := FirstNames(points[..|points| - 1]), points[|points| - 1].node;
      if last in names then names else names + [last]
  }

  function Cut(names: seq<string>, count: int): seq<string> {
    if count <= 0 then [] else if count < |names| then names[..count] else names
  }

  /** What `get_nodes` returns for a key with hash h. */
  function Replicas(ring: seq<Point>, h: int, count: int): seq<string> {
    Cut(FirstNames(Rotation(ring, h)), count)
  }

  /** What `get_node` returns for a key with hash h. */
  function Owner(ring: seq<Point>, h: int): Option<string> {
    if ring == [] then None else Some(Rotation(ring, h)[0].node)
  }

  function Without(ring: seq<Point>, node: string): seq<Point> {
    if ring == [] then []
    else if ring[0].node != node then [ring[0]] + Without(ring[1..], node)
    else Without(ring[1..], node)
  }

  function Minus(names: seq<string>, name: string): seq<string> {
    if names == [] then []
    else if names[0] != name then [names[0]] + Minus(names[1..], name)
    else Minus(names[1..], name)
  }

  // ----- Replica lists -----

  lemma {:induction false} FirstNamesAreDistinct(points: seq<Point>)
    ensures var names := FirstNames(points);
            && (forall i, j | 0 <= i < j < |names| :: names[i] != names[j])
            && (forall p | p in points :: p.node in names)
            && (forall name | name in names :: exists p :: p in points && p.node == name)
  {
    if points != [] {
      var init := points[..|points| - 1];
      FirstNamesAreDistinct(init);
      assert points == init + [points[|points| - 1]];
    }
  }

  lemma {:induction false} FirstNamesGrow(points: seq<Point>, i: nat)
    requires i <= |points|
    ensures FirstNames(points[..i]) <= FirstNames(points)
    decreases |points| - i
  {
    if i < |points| {
      FirstNamesGrow(points, i + 1);
      assert points[..i + 1][..i] == points[..i];
    } else {
      assert points[..i] == points;
    }
  }

  lemma NoNames(points: seq<Point>)
    ensures FirstNames(points[..0]) == []
  {
  }

  lemma OneMoreName(points: seq<Point>, i: nat)
    requires i < |points|
    ensures var names := FirstNames(points[..i]);
            FirstNames(points[..i + 1]) == if points[i].node in names then names else names + [points[i].node]
  {
    assert points[..i + 1][..i] == points[..i];
  }

  lemma {:induction false} MinusAppends(a: seq<string>, b: seq<string>, name: string)
    ensures Minus(a + b, name) == Minus(a, name) + Minus(b, name)
  {
    if a == [] {
      assert a + b == b;
    } else {
      MinusAppends(a[1..], b, name);
      assert (a + b)[1..] == a[1..] + b;
      var u, v := Minus(a[1..], name), Minus(b, name);
      assert [a[0]] + (u + v) == [a[0]] + u + v;
      assert Minus(a, name) == if a[0] != name then [a[0]] + u else u;
    }
  }

  lemma {:induction false} WithoutAppends(a: seq<Point>, b: seq<Point>, name: string)
    ensures Without(a + b, name) == Without(a, name) + Without(b, name)
  {
    if a == [] {
      assert a + b == b;
    } else {
      WithoutAppends(a[1..], b, name);
      assert (a + b)[1..] == a[1..] + b;
      var u, v := Without(a[1..], name), Without(b, name);
      assert [a[0]] + (u + v) == [a[0]] + u + v;
      assert Without(a, name) == if a[0].node != name then [a[0]] + u else u;
    }
  }

  lemma {:induction false} MinusMembers(names: seq<string>, name: string)
    ensures forall n :: n in Minus(names, name) <==> n in names && n != name
    ensures name !in names ==> Minus(names, name) == names
    ensures |Minus(names, name)| <= |names|
  {
    if names != [] {
      MinusMembers(names[1..], name);
      assert names == [names[0]] + names[1..];
    }
  }

  lemma {:induction false} WithoutMembers(ring: seq<Point>, name: string)
    ensures forall p :: multiset(Without(ring, name))[p] == if p.node == name then 0 else multiset(ring)[p]
    ensures forall p | p in Without(ring, name) :: p in ring && p.node != name
  {
    if ring != [] {
      WithoutMembers(ring[1..], name);
      assert ring == [ring[0]] + ring[1..];
      assert multiset(ring) == multiset{ring[0]} + multiset(ring[1..]);
    }
  }

  /** Leaving a node out of the points leaves it out of the names. */
  lemma {:induction false} FirstNamesWithout(points: seq<Point>, name: string)
    ensures FirstNames(Without(points, name)) == Minus(FirstNames(points), name)
  {
    if points != [] {
      var init, last := points[..|points| - 1], points[|points| - 1];
      FirstNamesWithout(init, name);
      assert points == init + [last];
      WithoutAppends(init, [last], name);
      MinusMembers(FirstNames(init), name);
      MinusAppends(FirstNames(init), [last.node], name);
      var rest := Without(init, name);
      assert Without([last], name) == if last.node != name then [last] else [];
      if last.node != name {
        assert Without(points, name)[..|rest|] == rest;
      } else {
        assert Without(points, name) == rest;
      }
    }
  }

  /** Of distinct names, the first c other than x are among the first c + 1. */
  lemma CutWithout(names: seq<string>, x: string, c: int)
    requires forall i, j | 0 <= i < j < |names| :: names[i] != names[j]
    ensures Cut(Minus(names, x), c) == Cut(Minus(Cut(names, c + 1), x), c)
  {
    if 0 < c && c + 1 < |names| {
      var a, b := names[..c + 1], names[c + 1..];
      assert names == a + b;
      MinusAppends(a, b, x);
      LoseAtMostOne(a, x);
    }
  }

  lemma {:induction false} LoseAtMostOne(names: seq<string>, x: string)
    requires forall i, j | 0 <= i < j < |names| :: names[i] != names[j]
    ensures |Minus(names, x)| >= |names| - 1
  {
    if names != [] {
      if names[0] == x {
        assert x !in names[1..];
        MinusMembers(names[1..], x);
      } else {
        LoseAtMostOne(names[1..], x);
      }
    }
  }

  // ----- Removing and adding a node -----

  lemma {:induction false} WithoutStaysSorted(ring: seq<Point>, x: string)
    requires Sorted(ring)
    ensures Sorted(Without(ring, x))
  {
    if ring != [] {
      SortedTail(ring);
      hide Sorted, Le;
      WithoutStaysSorted(ring[1..], x);
      WithoutMembers(ring[1..], x);
      LeastInFront(ring[0], Without(ring[1..], x));
    }
  }

  lemma SortedTail(ring: seq<Point>)
    requires ring != [] && Sorted(ring)
    ensures Sorted(ring[1..]) && forall p | p in ring[1..] :: Le(ring[0], p)
  {
    hide Le;
    forall i | 0 <= i < |ring[1..]| ensures ring[1..][i] == ring[i + 1] {
    }
  }

  lemma LeastInFront(p: Point, rest: seq<Point>)
    requires Sorted(rest) && forall q | q in rest :: Le(p, q)
    ensures Sorted([p] + rest)
  {
    PointOrder(p, p, p);
    hide Le;
  }

  /** Leaving out a node keeps the place where the ring splits. */
  lemma SplitWithout(a: seq<Point>, b: seq<Point>, start: Point, x: string)
    requires Splits(a + b, start, |a|)
    ensures Splits(Without(a, x) + Without(b, x), start, |Without(a, x)|)
  {
    hide Le, Without;
    var a', b' := Without(a, x), Without(b, x);
    WithoutMembers(a, x);
    WithoutMembers(b, x);
    forall p | p in a ensures Le(p, start) {
      var i :| 0 <= i < |a| && a[i] == p;
      assert (a + b)[i] == p;
    }
    forall p | p in b ensures !Le(p, start) {
      var i :| 0 <= i < |b| && b[i] == p;
      assert (a + b)[|a| + i] == p;
    }
    forall i | 0 <= i < |a'| ensures Le((a' + b')[i], start) {
      assert a'[i] in a;
    }
    forall i | |a'| <= i < |a' + b'| ensures !Le((a' + b')[i], start) {
      assert b'[i - |a'|] in b;
    }
  }

  lemma RotationWithout(ring: seq<Point>, x: string, h: int)
    requires Sorted(ring)
    ensures Rotation(Without(ring, x), h) == Without(Rotation(ring, h), x)
  {
    hide Le, FirstAfter, Without, Splits;
    var start, k := Point(h, ""), FirstAfter(ring, Point(h, ""));
    var a, b := ring[..k], ring[k..];
    assert ring == a + b;
    WithoutAppends(a, b, x);
    WithoutAppends(b, a, x);
    FirstAfterSplits(ring, start);
    SplitWithout(a, b, start, x);
    SplitIsFirstAfter(Without(ring, x), start, |Without(a, x)|);
    assert Without(ring, x) == Without(a, x) + Without(b, x);
  }

  /** Removing x: for every key and every count, the replicas are the old ones without x, the list
      filled up by the one next in line. */
  lemma RemovalShiftsReplicas(ring: seq<Point>, x: string, h: int, count: int)
    requires Sorted(ring)
    ensures Replicas(Without(ring, x), h, count) == Cut(Minus(Replicas(ring, h, count + 1), x), count)
  {
    RotationWithout(ring, x, h);
    FirstNamesWithout(Rotation(ring, h), x);
    FirstNamesAreDistinct(Rotation(ring, h));
    CutWithout(FirstNames(Rotation(ring, h)), x, count);
  }

  /** The owner is the first replica. */
  lemma OwnerIsFirstReplica(ring: seq<Point>, h: int, count: int)
    requires count > 0
    ensures match Owner(ring, h)
            case None => Replicas(ring, h, count) == []
            case Some(node) => Replicas(ring, h, count) != [] && Replicas(ring, h, count)[0] == node
  {
    var rotation := Rotation(ring, h);
    if ring != [] {
      FirstNamesGrow(rotation, 1);
      assert rotation[..1][..0] == [];
      assert FirstNames(rotation[..1]) == [rotation[0].node];
    }
  }

  /** Removing x moves the keys x owned, and no others. */
  lemma RemovalMovesOnlyItsKeys(ring: seq<Point>, x: string, h: int)
    requires Sorted(ring) && Owner(ring, h) != Some(x)
    ensures Owner(Without(ring, x), h) == Owner(ring, h)
  {
    RemovalShiftsReplicas(ring, x, h, 1);
    OwnerIsFirstReplica(ring, h, 2);
    OwnerIsFirstReplica(Without(ring, x), h, 1);
  }

  /** The ring of a smaller membership is the larger one's without the leaver's points. */
  lemma RingWithout(c: Config, nodes: set<string>, ring: seq<Point>, x: string)
    requires IsRing(c, nodes, ring)
    ensures IsRing(c, nodes - {x}, Without(ring, x))
  {
    WithoutStaysSorted(ring, x);
    WithoutMembers(ring, x);
  }

  lemma RingWithNode(c: Config, nodes: set<string>, x: string, ring: seq<Point>, ring': seq<Point>)
    requires x !in nodes && IsRing(c, nodes, ring)
    requires Sorted(ring') && multiset(ring') == multiset(ring) + PointsOf(c, x)
    ensures IsRing(c, nodes + {x}, ring')
  {
    hide Sorted;
    forall p ensures multiset(ring')[p] == if p.node in nodes + {x} then PointsOf(c, p.node)[p] else 0 {
      assert multiset(ring')[p] == multiset(ring)[p] + PointsOf(c, x)[p];
    }
  }

  /** The ring before, with the first n points of x put in. */
  ghost predicate HasAdded(c: Config, x: string, before: seq<Point>, ring: seq<Point>, n: int) {
    Sorted(ring) && multiset(ring) == multiset(before) + PointsUpTo(c, x, n)
  }

  lemma NothingAdded(c: Config, nodes: set<string>, x: string, ring: seq<Point>)
    requires IsRing(c, nodes, ring)
    ensures HasAdded(c, x, ring, ring, 0)
  {
  }

  lemma AddedIsSorted(c: Config, x: string, before: seq<Point>, ring: seq<Point>, n: int)
    requires HasAdded(c, x, before, ring, n)
    ensures Sorted(ring)
  {
  }

  lemma OneMoreAdded(c: Config, x: string, before: seq<Point>, ring: seq<Point>, ring': seq<Point>, n: nat)
    requires HasAdded(c, x, before, ring, n)
    requires Sorted(ring') && multiset(ring') == multiset(ring) + multiset{VirtualPoint(c, x, n)}
    ensures HasAdded(c, x, before, ring', n + 1)
  {
  }

  lemma AllAdded(c: Config, nodes: set<string>, x: string, before: seq<Point>, ring: seq<Point>, n: int)
    requires x !in nodes && IsRing(c, nodes, before) && HasAdded(c, x, before, ring, n)
    requires n == c.VirtualCount(x) || (n == 0 && c.VirtualCount(x) < 0)
    ensures IsRing(c, nodes + {x}, ring)
  {
    hide Sorted;
    RingWithNode(c, nodes, x, before, ring);
  }

  /** Adding x: every key keeps its owner or moves to x, and removing x again would bring back the
      old replicas of every key. */
  lemma AdditionMovesKeysToNewcomer(c: Config, nodes: set<string>, x: string, ring: seq<Point>, ring': seq<Point>,
                                    h: int, count: int)
    requires x !in nodes && IsRing(c, nodes, ring) && IsRing(c, nodes + {x}, ring')
    ensures Owner(ring', h) == Owner(ring, h) || Owner(ring', h) == Some(x)
    ensures Replicas(ring, h, count) == Cut(Minus(Replicas(ring', h, count + 1), x), count)
  {
    RingWithout(c, nodes + {x}, ring', x);
    assert nodes + {x} - {x} == nodes;
    MembersDetermineRing(c, nodes, ring, Without(ring', x));
    RemovalShiftsReplicas(ring', x, h, count);
    if Owner(ring', h) != Some(x) {
      RemovalMovesOnlyItsKeys(ring', x, h);
    }
  }

  lemma CutIsPrefix(names: seq<string>, count: int)
    ensures var cut := Cut(names, count);
            && |cut| <= |names| && (forall i | 0 <= i < |cut| :: cut[i] == names[i])
            && (|cut| < count ==> cut == names) && (count >= 0 ==> |cut| <= count)
  {
  }

  /** A lookup returns distinct nodes of the ring, as many as asked for if there are so many. */
  lemma ReplicasAreDistinctNodes(ring: seq<Point>, h: int, count: int)
    ensures var replicas := Replicas(ring, h, count);
            && (forall i, j | 0 <= i < j < |replicas| :: replicas[i] != replicas[j])
            && (forall name | name in replicas :: exists p :: p in ring && p.node == name)
            && (|replicas| < count ==> forall p | p in ring :: p.node in replicas)
            && (count >= 0 ==> |replicas| <= count)
  {
    var points, replicas := Rotation(ring, h), Replicas(ring, h, count);
    var names := FirstNames(points);
    assert replicas == Cut(names, count);
    FirstNamesAreDistinct(points);
    RotationMembers(ring, h);
    CutIsPrefix(names, count);
    hide Rotation, FirstNames, FirstAfter, Cut, Replicas;
    forall name | name in replicas ensures exists p :: p in ring && p.node == name {
      var i :| 0 <= i < |replicas| && replicas[i] == name;
      assert names[i] in names;
      var p :| p in points && p.node == name;
      assert p in ring;
    }
    if |replicas| < count {
      forall p | p in ring ensures p.node in replicas {
        assert p in points;
      }
    }
  }

  lemma RotationMembers(ring: seq<Point>, h: int)
    ensures forall p :: p in Rotation(ring, h) <==> p in ring
  {
    var k := FirstAfter(ring, Point(h, ""));
    assert ring == ring[..k] + ring[k..];
  }

  // ----- Where a lookup starts -----

  /** The first point at or after the key's hash, as an index; |ring| if there is none. */
  ghost predicate IsSuccessor(ring: seq<Point>, h: int, k: nat) {
    && k <= |ring|
    && (forall i | 0 <= i < k :: ring[i].hash < h)
    && (forall i | k <= i < |ring| :: ring[i].hash >= h)
  }

  /** The search starts at the first point at or after the key exactly when no node with the empty
      name has a point on the key's hash: that point alone is at most (hash, ''). */
  lemma SearchFindsSuccessorIff(ring: seq<Point>, h: int)
    requires Sorted(ring)
    ensures IsSuccessor(ring, h, FirstAfter(ring, Point(h, ""))) <==> Point(h, "") !in ring
  {
    var k := FirstAfter(ring, Point(h, ""));
    FirstAfterSplits(ring, Point(h, ""));
    if Point(h, "") in ring {
      var i :| 0 <= i < |ring| && ring[i] == Point(h, "");
      assert Le(ring[i], Point(h, ""));
    } else {
      forall i | 0 <= i < k ensures ring[i].hash < h {
        assert Le(ring[i], Point(h, ""));
        assert ring[i] in ring;
      }
      forall i | k <= i < |ring| ensures ring[i].hash >= h {
        assert !Le(ring[i], Point(h, ""));
      }
    }
  }

  // ----- The order in which a lookup goes round -----

  /** The point lies after the key: on a greater hash, or on the same one with a name that is not empty. */
  predicate LiesAfter(h: int, p: Point) {
    p.hash > h || (p.hash == h && p.node != "")
  }

  /** Going up from the key's hash, and on from the least hash past the end, p comes no later than q. */
  predicate Clockwise(h: int, p: Point, q: Point) {
    if LiesAfter(h, p) == LiesAfter(h, q) then Le(p, q) else LiesAfter(h, p)
  }

  lemma AtMostTheKey(h: int, p: Point)
    ensures Le(p, Point(h, "")) <==> !LiesAfter(h, p)
  {
  }

  lemma RotationIsClockwise(ring: seq<Point>, h: int, i: nat, j: nat)
    requires Sorted(ring) && i <= j < |ring|
    ensures |Rotation(ring, h)| == |ring| && Clockwise(h, Rotation(ring, h)[i], Rotation(ring, h)[j])
  {
    hide Le, LiesAfter;
    var k, rotation := FirstAfter(ring, Point(h, "")), Rotation(ring, h);
    FirstAfterSplits(ring, Point(h, ""));
    AtMostTheKey(h, rotation[i]);
    AtMostTheKey(h, rotation[j]);
    var n := |ring| - k;
    assert rotation[i] == if i < n then ring[k + i] else ring[i - n];
    assert rotation[j] == if j < n then ring[k + j] else ring[j - n];
  }

  /** The place of the point that brings a name into the list of first names. */
  lemma {:induction false} FirstOfName(points: seq<Point>, i: nat) returns (k: nat)
    requires i < |FirstNames(points)|
    ensures k < |points| && points[k].node == FirstNames(points)[i]
    ensures forall m | 0 <= m < k :: points[m].node in FirstNames(points)[..i]
  {
    var init, last := points[..|points| - 1], points[|points| - 1].node;
    var names := FirstNames(init);
    if i < |names| {
      k := FirstOfName(init, i);
      assert FirstNames(points)[..i] == names[..i];
    } else {
      k := |points| - 1;
      FirstNamesAreDistinct(init);
      assert FirstNames(points)[..i] == names;
      forall m | 0 <= m < k ensures points[m].node in names {
        assert init[m] in init;
      }
    }
  }

  /** The i-th replica is the nearest of the nodes that are not among the replicas before it: it has a point
      no later round the ring than every point of any of them. */
  lemma ReplicasAreNearest(ring: seq<Point>, h: int, count: int, i: nat)
    requires Sorted(ring) && i < |Replicas(ring, h, count)|
    ensures var replicas := Replicas(ring, h, count);
            exists p :: p in ring && p.node == replicas[i]
                        && forall q | q in ring && q.node !in replicas[..i] :: Clockwise(h, p, q)
  {
    hide Rotation, FirstNames, Clockwise, Sorted;
    var rotation, replicas := Rotation(ring, h), Replicas(ring, h, count);
    CutIsPrefix(FirstNames(rotation), count);
    var k := FirstOfName(rotation, i);
    RotationMembers(ring, h);
    assert replicas[..i] == FirstNames(rotation)[..i];
    var p := rotation[k];
    assert p in rotation;
    forall q | q in ring && q.node !in replicas[..i] ensures Clockwise(h, p, q) {
      assert q in rotation;
      var m :| 0 <= m < |rotation| && rotation[m] == q;
      RotationLength(ring, h);
      RotationIsClockwise(ring, h, k, m);
    }
  }

  lemma RotationLength(ring: seq<Point>, h: int)
    ensures |Rotation(ring, h)| == |ring|
  {
  }

  lemma OwnerIsNearest(ring: seq<Point>, h: int)
    requires Sorted(ring) && ring != []
    ensures Owner(ring, h).Some?
    ensures exists p :: p in ring && p.node == Owner(ring, h).value && forall q | q in ring :: Clockwise(h, p, q)
  {
    OwnerIsFirstReplica(ring, h, 1);
    ReplicasAreNearest(ring, h, 1, 0);
  }

  /** A node with the empty name is passed by for the key ":0", the name of its own first point, on every
      ring it is a member of; no collision is needed. */
  lemma EmptyNameIsPassedBy(c: Config, nodes: set<string>, ring: seq<Point>)
    requires IsRing(c, nodes, ring) && "" in nodes && c.VirtualCount("") > 0
    ensures var h := c.hash(":0");
            Point(h, "") in ring && !IsSuccessor(ring, h, FirstAfter(ring, Point(h, "")))
  {
    FirstPointIsOnRing(c, "", c.VirtualCount(""));
    assert "" + ":" + Decimal(0) == ":0";
    assert multiset(ring)[Point(c.hash(":0"), "")] > 0;
    SearchFindsSuccessorIff(ring, c.hash(":0"));
  }

  lemma {:induction false} FirstPointIsOnRing(c: Config, node: string, n: int)
    requires n > 0
    ensures PointsUpTo(c, node, n)[VirtualPoint(c, node, 0)] > 0
  {
    if n > 1 {
      FirstPointIsOnRing(c, node, n - 1);
    }
  }

  lemma OnePointOf(c: Config, node: string)
    requires c.VirtualCount(node) == 1
    ensures PointsOf(c, node) == multiset{Point(c.hash(node + ":0"), node)}
  {
    assert Decimal(0) == "0" && node + ":" + "0" == node + ":0";
    assert PointsUpTo(c, node, 1) == PointsUpTo(c, node, 0) + multiset{VirtualPoint(c, node, 0)};
  }

  lemma TwoPointsAreRing(c: Config, x: Point, y: Point)
    requires x.node != y.node && x.hash < y.hash
    requires PointsOf(c, x.node) == multiset{x} && PointsOf(c, y.node) == multiset{y}
    ensures IsRing(c, {x.node, y.node}, [x, y])
  {
    hide PointsOf, Config.VirtualCount;
    PointOrder(x, x, x);
    PointOrder(y, y, y);
    assert multiset([x, y]) == multiset{x, y};
  }

  lemma SecondOfTwo(x: Point, y: Point)
    requires x.node == "" && x.hash < y.hash
    ensures IsSuccessor([x, y], x.hash, 0) && Owner([x, y], x.hash) == Some(y.node)
  {
    var ring := [x, y];
    StringsAreOrdered("", "", "");
    assert ring[1..] == [y] && [y][1..] == [] && FirstAfter([y], x) == 0 && FirstAfter(ring, x) == 1;
    assert Rotation(ring, x.hash) == ring[1..] + ring[..1];
  }

  /** With two members the key goes to the other one, though the first point at or after it is the first
      point of the node with the empty name. */
  lemma EmptyNameLosesItsKey(c: Config, name: string)
    requires name != "" && c.VirtualCount("") == 1 && c.VirtualCount(name) == 1 && c.hash(":0") < c.hash(name + ":0")
    ensures var h, ring := c.hash(":0"), [Point(c.hash(":0"), ""), Point(c.hash(name + ":0"), name)];
            IsRing(c, {"", name}, ring) && IsSuccessor(ring, h, 0) && Owner(ring, h) == Some(name)
  {
    hide *;
    OnePointOf(c, "");
    OnePointOf(c, name);
    assert "" + ":0" == ":0";
    var x, y := Point(c.hash(":0"), ""), Point(c.hash(name + ":0"), name);
    TwoPointsAreRing(c, x, y);
    SecondOfTwo(x, y);
  }

  // ----- The ring in place -----

  method BisectRight(ring: seq<Point>, x: Point) returns (k: nat)
    requires Sorted(ring)
    ensures Splits(ring, x, k)
    ensures k == FirstAfter(ring, x)
  {
    var lo, hi := 0, |ring|;
    while lo < hi
      invariant 0 <= lo <= hi <= |ring|
      invariant forall i | 0 <= i < lo :: Le(ring[i], x)
      invariant forall i | hi <= i < |ring| :: !Le(ring[i], x)
    {
      var mid := (lo + hi) / 2;
      if !Le(ring[mid], x) {
        forall i | mid <= i < |ring| ensures !Le(ring[i], x) {
          PointOrder(ring[mid], ring[i], x);
        }
        hi := mid;
      } else {
        forall i | 0 <= i <= mid ensures Le(ring[i], x) {
          PointOrder(ring[i], ring[mid], x);
        }
        lo := mid + 1;
      }
    }
    k := lo;
    SplitIsFirstAfter(ring, x, k);
  }

  lemma InsertedSorted(ring: seq<Point>, x: Point, k: nat)
    requires Sorted(ring) && Splits(ring, x, k)
    ensures Sorted(ring[..k] + [x] + ring[k..])
  {
    hide Le;
    var ring' := ring[..k] + [x] + ring[k..];
    PointOrder(x, x, x);
    forall i, j | 0 <= i <= j < |ring'| ensures Le(ring'[i], ring'[j]) {
      if i == k && j > k {
        PointOrder(x, ring[j - 1], x);
      }
    }
  }

  method Insort(ring: seq<Point>, x: Point) returns (ring': seq<Point>)
    requires Sorted(ring)
    ensures Sorted(ring') && multiset(ring') == multiset(ring) + multiset{x}
  {
    var k := BisectRight(ring, x);
    ring' := ring[..k] + [x] + ring[k..];
    assert ring == ring[..k] + ring[k..];
    InsertedSorted(ring, x, k);
  }

  /** The point that the i-th step round the ring meets. */
  function At(ring: seq<Point>, k: nat, i: nat): Point
    requires ring != []
  {
    ring[(k + i) % |ring|]
  }

  lemma SmallMod(a: nat, n: nat)
    requires 0 < n && a < 2 * n
    ensures a % n == if a < n then a else a - n
  {
  }

  lemma EmptyRing(h: int, count: int)
    ensures Replicas([], h, count) == []
  {
  }

  lemma RotationMeets(ring: seq<Point>, h: int)
    ensures |Rotation(ring, h)| == |ring|
    ensures forall i | 0 <= i < |ring| :: Rotation(ring, h)[i] == At(ring, FirstAfter(ring, Point(h, "")), i)
  {
    var k := FirstAfter(ring, Point(h, ""));
    forall i | 0 <= i < |ring| ensures Rotation(ring, h)[i] == At(ring, k, i) {
      SmallMod(k + i, |ring|);
    }
  }

  class ConsistentHashRing {
    const config: Config
    var ring: seq<Point>
    var nodes: set<string>

    ghost predicate Valid()
      reads this
    {
      IsRing(config, nodes, ring)
    }

    constructor (config: Config, initial: seq<string>)
      ensures this.config == config && Valid() && nodes == set n | n in initial
    {
      this.config := config;
      ring, nodes := [], {};
      new;
      for i := 0 to |initial|
        invariant Valid() && nodes == set n | n in initial[..i]
      {
        AddNode(initial[i]);
        assert initial[..i + 1] == initial[..i] + [initial[i]];
      }
      assert initial[..|initial|] == initial;
    }

    method AddNode(node: string)
      requires Valid()
      modifies this
      ensures Valid() && nodes == old(nodes) + {node}
      ensures node in old(nodes) ==> ring == old(ring)
      ensures var product := config.virtualNodes * if node in config.weights then config.weights[node] else 1;
              CountOf(ring, node) == if product > 0 then product else 0
    {
      hide IsRing, Sorted, HasAdded, CountOf, Config.VirtualCount, VirtualPoint;
      if node in nodes {
        assert nodes + {node} == nodes;
        PointsByWeight(config, nodes, ring, node);
        return;
      }
      nodes := nodes + {node};
      ghost var members, before := old(nodes), ring;
      NothingAdded(config, members, node, before);
      var virtualCount := config.VirtualCount(node);
      var i := 0;
      while i < virtualCount
        invariant 0 <= i && (i <= virtualCount || i == 0)
        invariant nodes == members + {node}
        invariant HasAdded(config, node, before, ring, i)
      {
        AddedIsSorted(config, node, before, ring, i);
        var ring' := Insort(ring, VirtualPoint(config, node, i));
        OneMoreAdded(config, node, before, ring, ring', i);
        ring := ring';
        i := i + 1;
      }
      AllAdded(config, members, node, before, ring, i);
      PointsByWeight(config, nodes, ring, node);
    }

    method RemoveNode(node: string)
      requires Valid()
      modifies this
      ensures Valid() && nodes == old(nodes) - {node}
      ensures ring == if node in old(nodes) then Without(old(ring), node) else old(ring)
    {
      if node !in nodes {
        return;
      }
      nodes := nodes - {node};
      RingWithout(config, old(nodes), ring, node);
      ring := Without(ring, node);
    }

    method GetNode(key: string) returns (node: Option<string>)
      requires Valid()
      ensures node == Owner(ring, config.hash(key))
      ensures ring == [] <==> node == None
      ensures node.Some? ==> exists p :: p in ring && p.node == node.value
                                         && forall q | q in ring :: Clockwise(config.hash(key), p, q)
    {
      if ring == [] {
        return None;
      }
      var keyHash := config.hash(key);
      var idx := BisectRight(ring, Point(keyHash, ""));
      OwnerIsNearest(ring, keyHash);
      if idx == |ring| {
        idx := 0;
      }
      return Some(ring[idx].node);
    }

    method GetNodes(key: string, count: int) returns (result: seq<string>)
      requires Valid()
      ensures result == Replicas(ring, config.hash(key), count)
      ensures count <= 0 ==> result == []
    {
      hide At, FirstNames, Rotation, FirstAfter, Splits, Le;
      EmptyRing(config.hash(key), count);
      if ring == [] || count <= 0 {
        return [];
      }
      var keyHash := config.hash(key);
      var idx := BisectRight(ring, Point(keyHash, ""));
      ghost var rotation := Rotation(ring, keyHash);
      RotationMeets(ring, keyHash);
      hide IsRing;
      var seen: set<string>;
      result, seen := [], {};
      NoNames(rotation);
      for i := 0 to |ring|
        invariant result == FirstNames(rotation[..i])
        invariant |result| < count
        invariant forall n :: n in seen <==> n in result
      {
        var node := At(ring, idx, i).node;
        OneMoreName(rotation, i);
        if node !in seen {
          result := result + [node];
          seen := seen + {node};
          if |result| == count {
            FirstNamesGrow(rotation, i + 1);
            return;
          }
        }
      }
      assert rotation[..|ring|] == rotation;
    }
  }
}
