/** The Merkle tree (merkle_tree.py), over an arbitrary hash function h. */
module MerkleTrees {
  import opened Wrappers

  type Hash = string -> string

  datatype Node =
    | Leaf(data: string, hash: string)
    | Parent(left: Node, right: Node, width: nat, hash: string)
  {
    function Width(): nat {
      if Leaf? then 1 else width
    }
  }

  datatype Error = ValueError

  function NewLeaf(h: Hash, data: string): Node {
    Leaf(data, h(data))
  }

  function NewParent(h: Hash, left: Node, right: Node): Node {
    Parent(left, right, left.Width() + right.Width(), h(left.hash + right.hash))
  }

  /** Every hash and width in the tree is the one its constructor computed. */
  ghost predicate WellMade(h: Hash, n: Node) {
    match n
    case Leaf(data, _) => n == NewLeaf(h, data)
    case Parent(left, right, _, _) => WellMade(h, left) && WellMade(h, right) && n == NewParent(h, left, right)
  }

  function Leaves(n: Node): (data: seq<string>)
    ensures |data| > 0
  {
    match n
    case Leaf(data, _) => [data]
    case Parent(left, right, _, _) => Leaves(left) + Leaves(right)
  }

  lemma {:induction false} WidthCountsLeaves(h: Hash, n: Node)
    requires WellMade(h, n)
    ensures n.Width() == |Leaves(n)|
  {
    if n.Parent? {
      WidthCountsLeaves(h, n.left);
      WidthCountsLeaves(h, n.right);
    }
  }

  // ----- Building -----

  /** One level up: neighbours are paired, an odd last node is promoted as it is. */
  function Level(h: Hash, nodes: seq<Node>): (parents: seq<Node>)
    ensures |parents| == (|nodes| + 1) / 2
  {
    if |nodes| < 2 then nodes else [NewParent(h, nodes[0], nodes[1])] + Level(h, nodes[2..])
  }

  function Build(h: Hash, nodes: seq<Node>): Node
    requires nodes != []
    decreases |nodes|
  {
    if |nodes| == 1 then nodes[0] else Build(h, Level(h, nodes))
  }

  function AllLeaves(nodes: seq<Node>): seq<string> {
    if nodes == [] then [] else Leaves(nodes[0]) + AllLeaves(nodes[1..])
  }

  ghost predicate AllWellMade(h: Hash, nodes: seq<Node>) {
    forall i | 0 <= i < |nodes| :: WellMade(h, nodes[i])
  }

  lemma {:induction false} LevelKeepsLeaves(h: Hash, nodes: seq<Node>)
    requires AllWellMade(h, nodes)
    ensures AllLeaves(Level(h, nodes)) == AllLeaves(nodes) && AllWellMade(h, Level(h, nodes))
  {
    if |nodes| >= 2 {
      var rest := nodes[2..];
      LevelKeepsLeaves(h, rest);
      assert nodes[1..][1..] == rest;
      assert AllLeaves(nodes) == Leaves(nodes[0]) + (Leaves(nodes[1]) + AllLeaves(rest));
    }
  }

  /** The tree holds the leaves of its parts, in order. */
  lemma {:induction false} BuildKeepsLeaves(h: Hash, nodes: seq<Node>)
    requires nodes != [] && AllWellMade(h, nodes)
    ensures Leaves(Build(h, nodes)) == AllLeaves(nodes) && WellMade(h, Build(h, nodes))
    decreases |nodes|
  {
    if |nodes| == 1 {
      assert AllLeaves(nodes[1..]) == [];
    } else {
      LevelKeepsLeaves(h, nodes);
      BuildKeepsLeaves(h, Level(h, nodes));
    }
  }

  lemma NoneLeft(h: Hash, nodes: seq<Node>)
    ensures Level(h, nodes[|nodes|..]) == [] && nodes[0..] == nodes
  {
  }

  lemma LevelFrom(h: Hash, nodes: seq<Node>, i: nat)
    requires i < |nodes|
    ensures i + 1 < |nodes| ==>
        Level(h, nodes[i..]) == [NewParent(h, nodes[i], nodes[i + 1])] + Level(h, nodes[i + 2..])
    ensures i + 1 == |nodes| ==> Level(h, nodes[i..]) == [nodes[i]]
  {
    if i + 1 < |nodes| {
      assert nodes[i..][2..] == nodes[i + 2..];
    } else {
      assert nodes[i..] == [nodes[i]];
    }
  }

  /** The parent level, as the loop of `_build_tree` fills it. */
  method ParentLevel(h: Hash, nodes: seq<Node>) returns (parents: seq<Node>)
    ensures parents == Level(h, nodes)
  {
    hide Level;
    NoneLeft(h, nodes);
    parents := [];
    var i := 0;
    while i < |nodes|
      invariant 0 <= i <= |nodes| + 1
      invariant i <= |nodes| ==> parents + Level(h, nodes[i..]) == Level(h, nodes)
      invariant i > |nodes| ==> parents == Level(h, nodes)
    {
      LevelFrom(h, nodes, i);
      var left := nodes[i];
      if i + 1 < |nodes| {
        var parent := NewParent(h, left, nodes[i + 1]);
        ghost var rest := Level(h, nodes[i + 2..]);
        assert parents + ([parent] + rest) == parents + [parent] + rest;
        parents := parents + [parent];
      } else {
        parents := parents + [left];
      }
      i := i + 2;
    }
  }

  method BuildTree(h: Hash, nodes: seq<Node>) returns (root: Node)
    requires nodes != [] && AllWellMade(h, nodes)
    ensures root == Build(h, nodes)
    ensures Leaves(root) == AllLeaves(nodes) && WellMade(h, root)
    decreases |nodes|
  {
    BuildKeepsLeaves(h, nodes);
    if |nodes| == 1 {
      return nodes[0];
    }
    LevelKeepsLeaves(h, nodes);
    var parents := ParentLevel(h, nodes);
    root := BuildTree(h, parents);
  }

  // ----- The tree -----

  datatype MerkleTree = MerkleTree(leaves: seq<Node>, root: Node)

  /** The tree over the blocks. */
  ghost predicate Holds(h: Hash, tree: MerkleTree, blocks: seq<string>) {
    && blocks != []
    && tree.leaves == LeafNodes(h, blocks)
    && tree.root == Build(h, tree.leaves)
    && WellMade(h, tree.root) && Leaves(tree.root) == blocks
  }

  function LeafNodes(h: Hash, blocks: seq<string>): seq<Node> {
    seq(|blocks|, i requires 0 <= i < |blocks| => NewLeaf(h, blocks[i]))
  }

  lemma {:induction false} LeavesOfLeafNodes(h: Hash, blocks: seq<string>)
    ensures AllLeaves(LeafNodes(h, blocks)) == blocks && AllWellMade(h, LeafNodes(h, blocks))
  {
    if blocks != [] {
      LeavesOfLeafNodes(h, blocks[1..]);
      assert LeafNodes(h, blocks)[1..] == LeafNodes(h, blocks[1..]);
      assert blocks == [blocks[0]] + blocks[1..];
    }
  }

  method NewTree(h: Hash, blocks: seq<string>) returns (tree: Result<MerkleTree, Error>)
    ensures tree.Failure? <==> blocks == []
    ensures tree.Success? ==> Holds(h, tree.value, blocks) && tree.value.root.hash == TreeHash(h, blocks)
  {
    if blocks == [] {
      return Failure(ValueError);
    }
    var leaves := LeafNodes(h, blocks);
    LeavesOfLeafNodes(h, blocks);
    RootIsTreeHash(h, blocks);
    var root := BuildTree(h, leaves);
    return Success(MerkleTree(leaves, root));
  }

  // ----- The root from the blocks alone -----

  /** The largest power of two below n. */
  function Split(n: nat): (k: nat)
    requires n >= 2
    ensures 0 < k < n <= 2 * k
  {
    if n == 2 then 1 else 2 * Split((n + 1) / 2)
  }

  lemma {:induction false} SplitIsPower(n: nat) returns (e: nat)
    requires n >= 2
    ensures Split(n) == Power2(e)
  {
    if n == 2 {
      e := 0;
    } else {
      e := SplitIsPower((n + 1) / 2);
      e := e + 1;
    }
  }

  /** The hash of a list of blocks: of the two parts' hashes in a row, the first part being as long as the
      largest power of two below the count. */
  function TreeHash(h: Hash, blocks: seq<string>): string
    requires blocks != []
  {
    if |blocks| == 1 then h(blocks[0])
    else
      var k := Split(|blocks|);
      h(TreeHash(h, blocks[..k]) + TreeHash(h, blocks[k..]))
  }

  lemma {:induction false} LevelSplits(h: Hash, nodes: seq<Node>, k: nat)
    requires k <= |nodes| && k % 2 == 0
    ensures Level(h, nodes) == Level(h, nodes[..k]) + Level(h, nodes[k..])
  {
    if k == 0 {
      assert nodes[..0] == [] && nodes[0..] == nodes;
    } else {
      hide *;
      LevelSplits(h, nodes[2..], k - 2);
      SplitBehindPair(h, nodes, k);
    }
  }

  lemma SplitBehindPair(h: Hash, nodes: seq<Node>, k: nat)
    requires 2 <= k <= |nodes|
    requires Level(h, nodes[2..]) == Level(h, nodes[2..][..k - 2]) + Level(h, nodes[2..][k - 2..])
    ensures Level(h, nodes) == Level(h, nodes[..k]) + Level(h, nodes[k..])
  {
    LevelHead(h, nodes);
    LevelHead(h, nodes[..k]);
    hide *;
    SlicesBehindPair(nodes, k);
    var first := [NewParent(h, nodes[0], nodes[1])];
    assert nodes[..k][0] == nodes[0] && nodes[..k][1] == nodes[1];
    Associates(first, Level(h, nodes[2..][..k - 2]), Level(h, nodes[k..]));
  }

  lemma SlicesBehindPair(nodes: seq<Node>, k: nat)
    requires 2 <= k <= |nodes|
    ensures nodes[..k][2..] == nodes[2..][..k - 2] && nodes[2..][k - 2..] == nodes[k..]
  {
  }

  lemma Associates(a: seq<Node>, b: seq<Node>, c: seq<Node>)
    ensures a + (b + c) == (a + b) + c
  {
  }

  lemma LevelHead(h: Hash, nodes: seq<Node>)
    requires |nodes| >= 2
    ensures Level(h, nodes) == [NewParent(h, nodes[0], nodes[1])] + Level(h, nodes[2..])
  {
  }

  /** Pairing neighbours from the bottom up, and promoting an odd last node, splits from the top down at
      the largest power of two below the count. */
  lemma {:induction false} BuildSplits(h: Hash, nodes: seq<Node>)
    requires |nodes| >= 2
    ensures var k := Split(|nodes|); Build(h, nodes) == NewParent(h, Build(h, nodes[..k]), Build(h, nodes[k..]))
    decreases |nodes|
  {
    if |nodes| == 2 {
      PairBuilds(h, nodes);
    } else {
      var k, level := Split(|nodes|), Level(h, nodes);
      var half := Split(|level|);
      assert k == 2 * half;
      LevelSplits(h, nodes, k);
      hide Level, Build;
      assert level[..half] == Level(h, nodes[..k]) && level[half..] == Level(h, nodes[k..]);
      BuildLevel(h, nodes);
      BuildLevel(h, nodes[..k]);
      BuildLevel(h, nodes[k..]);
      BuildSplits(h, level);
    }
  }

  lemma PairBuilds(h: Hash, nodes: seq<Node>)
    requires |nodes| == 2
    ensures Build(h, nodes) == NewParent(h, Build(h, nodes[..1]), Build(h, nodes[1..]))
  {
    assert nodes[2..] == [];
    assert Level(h, nodes) == [NewParent(h, nodes[0], nodes[1])];
  }

  lemma BuildLevel(h: Hash, nodes: seq<Node>)
    requires nodes != []
    ensures Build(h, Level(h, nodes)) == Build(h, nodes)
  {
  }

  lemma LeafNodesSplit(h: Hash, blocks: seq<string>, k: nat)
    requires k <= |blocks|
    ensures LeafNodes(h, blocks)[..k] == LeafNodes(h, blocks[..k])
    ensures LeafNodes(h, blocks)[k..] == LeafNodes(h, blocks[k..])
  {
  }

  /** The root's hash, from the blocks alone. */
  lemma {:induction false} RootIsTreeHash(h: Hash, blocks: seq<string>)
    requires blocks != []
    ensures Build(h, LeafNodes(h, blocks)).hash == TreeHash(h, blocks)
    decreases |blocks|
  {
    if |blocks| > 1 {
      var k := Split(|blocks|);
      BuildSplits(h, LeafNodes(h, blocks));
      LeafNodesSplit(h, blocks, k);
      RootIsTreeHash(h, blocks[..k]);
      RootIsTreeHash(h, blocks[k..]);
    }
  }

  // ----- Shape -----

  ghost predicate SameShape(a: Node, b: Node) {
    match a
    case Leaf(_, _) => b.Leaf?
    case Parent(l, r, _, _) => b.Parent? && SameShape(l, b.left) && SameShape(r, b.right)
  }

  ghost predicate SameShapes(a: seq<Node>, b: seq<Node>) {
    |a| == |b| && forall i | 0 <= i < |a| :: SameShape(a[i], b[i])
  }

  lemma {:induction false} LevelKeepsShapes(h: Hash, a: seq<Node>, b: seq<Node>)
    requires SameShapes(a, b)
    ensures SameShapes(Level(h, a), Level(h, b))
  {
    if |a| >= 2 {
      LevelKeepsShapes(h, a[2..], b[2..]);
      assert SameShape(NewParent(h, a[0], a[1]), NewParent(h, b[0], b[1]));
    }
  }

  lemma {:induction false} BuildKeepsShapes(h: Hash, a: seq<Node>, b: seq<Node>)
    requires a != [] && SameShapes(a, b)
    ensures SameShape(Build(h, a), Build(h, b))
    decreases |a|
  {
    if |a| > 1 {
      LevelKeepsShapes(h, a, b);
      BuildKeepsShapes(h, Level(h, a), Level(h, b));
    }
  }

  /** Trees over equally many blocks have the same shape. */
  lemma EqualCountsSameShape(h: Hash, t: MerkleTree, u: MerkleTree, a: seq<string>, b: seq<string>)
    requires Holds(h, t, a) && Holds(h, u, b) && |a| == |b|
    ensures SameShape(t.root, u.root)
  {
    BuildKeepsShapes(h, t.leaves, u.leaves);
  }

  lemma {:induction false} SameShapeSameCount(a: Node, b: Node)
    requires SameShape(a, b)
    ensures |Leaves(a)| == |Leaves(b)|
  {
    if a.Parent? {
      SameShapeSameCount(a.left, b.left);
      SameShapeSameCount(a.right, b.right);
    }
  }

  // ----- Differences -----

  datatype Difference = Difference(index: nat, left: string, right: string)

  /** The plain scan: all positions at which two lists differ, in ascending order. */
  function Scan(a: seq<string>, b: seq<string>, offset: nat): seq<Difference>
    requires |a| == |b|
  {
    if a == [] then []
    else (if a[0] != b[0] then [Difference(offset, a[0], b[0])] else []) + Scan(a[1..], b[1..], offset + 1)
  }

  lemma {:induction false} ScanAppends(a: seq<string>, a': seq<string>, b: seq<string>, b': seq<string>, offset: nat)
    requires |a| == |b| && |a'| == |b'|
    ensures Scan(a + a', b + b', offset) == Scan(a, b, offset) + Scan(a', b', offset + |a|)
  {
    if a == [] {
      assert a + a' == a' && b + b' == b';
      assert Scan(a, b, offset) + Scan(a', b', offset) == Scan(a', b', offset);
    } else {
      ScanAppends(a[1..], a', b[1..], b', offset + 1);
      assert (a + a')[1..] == a[1..] + a' && (b + b')[1..] == b[1..] + b';
      var first := if a[0] != b[0] then [Difference(offset, a[0], b[0])] else [];
      var u, v := Scan(a[1..], b[1..], offset + 1), Scan(a', b', offset + |a|);
      assert Scan(a, b, offset) == first + u;
      assert Scan(a + a', b + b', offset) == first + (u + v) == (first + u) + v;
    }
  }

  lemma {:induction false} ScanOfEqual(a: seq<string>, offset: nat)
    ensures Scan(a, a, offset) == []
  {
    if a != [] {
      ScanOfEqual(a[1..], offset + 1);
    }
  }

  /** The scan reports exactly the differing positions, each with both values. */
  lemma {:induction false} ScanIsExact(a: seq<string>, b: seq<string>, offset: nat)
    requires |a| == |b|
    ensures forall d :: d in Scan(a, b, offset) <==>
              offset <= d.index < offset + |a| && a[d.index - offset] == d.left && b[d.index - offset] == d.right
                  && d.left != d.right
    ensures forall i, j | 0 <= i < j < |Scan(a, b, offset)| :: Scan(a, b, offset)[i].index < Scan(a, b, offset)[j].index
  {
    if a != [] {
      var rest := Scan(a[1..], b[1..], offset + 1);
      ScanIsExact(a[1..], b[1..], offset + 1);
      assert forall j | 0 <= j < |rest| :: rest[j] in rest;
      forall d ensures d in Scan(a, b, offset) <==>
          offset <= d.index < offset + |a| && a[d.index - offset] == d.left && b[d.index - offset] == d.right
              && d.left != d.right
      {
        assert d in Scan(a, b, offset) <==> (a[0] != b[0] && d == Difference(offset, a[0], b[0])) || d in rest;
        assert offset < d.index < offset + |a| ==>
          a[d.index - offset] == a[1..][d.index - (offset + 1)]
              && b[d.index - offset] == b[1..][d.index - (offset + 1)];
      }
    }
  }

  /** The strings that are hashed to make a tree. */
  function Hashed(n: Node): set<string> {
    match n
    case Leaf(data, _) => {data}
    case Parent(left, right, _, _) => Hashed(left) + Hashed(right) + {left.hash + right.hash}
  }

  /** No two strings hashed in the two trees collide, and hashes are equally long. */
  ghost predicate CollisionFree(h: Hash, strings: set<string>) {
    forall x, y | x in strings && y in strings :: |h(x)| == |h(y)| && (h(x) == h(y) ==> x == y)
  }

  lemma HashIsOfHashed(h: Hash, n: Node) returns (x: string)
    requires WellMade(h, n)
    ensures x in Hashed(n) && n.hash == h(x)
    ensures x == if n.Leaf? then n.data else n.left.hash + n.right.hash
  {
    x := if n.Leaf? then n.data else n.left.hash + n.right.hash;
  }

  /** Equal hashes at the same place mean equal leaves. */
  lemma {:induction false} EqualHashesEqualLeaves(h: Hash, a: Node, b: Node, strings: set<string>)
    requires WellMade(h, a) && WellMade(h, b) && SameShape(a, b) && a.hash == b.hash
    requires CollisionFree(h, strings) && Hashed(a) <= strings && Hashed(b) <= strings
    ensures Leaves(a) == Leaves(b)
  {
    if a.Leaf? {
      assert a.data in strings && b.data in strings;
    } else {
      var x, y := a.left.hash + a.right.hash, b.left.hash + b.right.hash;
      assert x in strings && y in strings;
      var p := HashIsOfHashed(h, a.left);
      var q := HashIsOfHashed(h, b.left);
      assert p in strings && q in strings;
      assert a.left.hash == x[..|a.left.hash|] == y[..|a.left.hash|] == b.left.hash;
      assert a.right.hash == x[|a.left.hash|..] == y[|a.left.hash|..] == b.right.hash;
      EqualHashesEqualLeaves(h, a.left, b.left, strings);
      EqualHashesEqualLeaves(h, a.right, b.right, strings);
    }
  }

  /** The recursion of `_diff_recursive`. Every difference it reports is real, whatever the hash;
      without collisions it reports all of them. */
  method DiffRecursive(h: Hash, node1: Node, node2: Node, offset: nat, diffs: seq<Difference>,
      ghost strings: set<string>)
      returns (diffs': seq<Difference>)
    requires WellMade(h, node1) && WellMade(h, node2) && SameShape(node1, node2)
    requires |Leaves(node1)| == |Leaves(node2)| && Hashed(node1) <= strings && Hashed(node2) <= strings
    ensures diffs <= diffs' && forall i | |diffs| <= i < |diffs'| ::
        diffs'[i] in Scan(Leaves(node1), Leaves(node2), offset)
    ensures CollisionFree(h, strings) ==> diffs' == diffs + Scan(Leaves(node1), Leaves(node2), offset)
    decreases node1
  {
    hide CollisionFree, Scan;
    if node1.hash == node2.hash {
      if CollisionFree(h, strings) {
        EqualHashesEqualLeaves(h, node1, node2, strings);
        ScanOfEqual(Leaves(node1), offset);
      }
      return diffs;
    }
    if node1.Leaf? && node2.Leaf? {
      ScanOfLeaves(node1.data, node2.data, offset);
      return diffs + [Difference(offset, node1.data, node2.data)];
    }
    WidthCountsLeaves(h, node1.left);
    SameShapeSameCount(node1.left, node2.left);
    SameShapeSameCount(node1.right, node2.right);
    ScanAppends(Leaves(node1.left), Leaves(node1.right), Leaves(node2.left), Leaves(node2.right), offset);
    assert WellMade(h, node1.left) && WellMade(h, node1.right) && WellMade(h, node2.left) && WellMade(h, node2.right);
    assert SameShape(node1.left, node2.left) && SameShape(node1.right, node2.right);
    assert Leaves(node1) == Leaves(node1.left) + Leaves(node1.right)
        && Leaves(node2) == Leaves(node2.left) + Leaves(node2.right);
    assert Hashed(node1.left) <= strings && Hashed(node1.right) <= strings;
    assert Hashed(node2.left) <= strings && Hashed(node2.right) <= strings;
    hide WellMade, SameShape, Leaves, Hashed, Node.Width;
    var half := DiffRecursive(h, node1.left, node2.left, offset, diffs, strings);
    diffs' := DiffRecursive(h, node1.right, node2.right, offset + node1.left.Width(), half, strings);
    assert forall i | |diffs| <= i < |half| :: diffs'[i] == half[i];
  }

  lemma ScanOfLeaves(a: string, b: string, offset: nat)
    requires a != b
    ensures Scan([a], [b], offset) == [Difference(offset, a, b)]
  {
  }

  /** `diff`: the plain scan of the blocks, for a hash without collisions among the strings hashed in
      the two trees; for any hash, nothing but real differences. Unequal counts are refused. */
  method Diff(h: Hash, tree: MerkleTree, other: MerkleTree, ghost a: seq<string>, ghost b: seq<string>)
      returns (r: Result<seq<Difference>, Error>)
    requires Holds(h, tree, a) && Holds(h, other, b)
    ensures r.Failure? <==> |a| != |b|
    ensures r.Success? ==> forall d | d in r.value :: d in Scan(a, b, 0)
    ensures r.Success? && CollisionFree(h, Hashed(tree.root) + Hashed(other.root)) ==> r.value == Scan(a, b, 0)
  {
    hide SameShape, Scan, CollisionFree, Hashed, Build, WellMade, Leaves;
    if |tree.leaves| != |other.leaves| {
      return Failure(ValueError);
    }
    EqualCountsSameShape(h, tree, other, a, b);
    var diffs := DiffRecursive(h, tree.root, other.root, 0, [], Hashed(tree.root) + Hashed(other.root));
    return Success(diffs);
  }

  // ----- Proofs of inclusion -----

  datatype Step = Left(hash: string) | Right(hash: string)

  /** The proof for the leaf at an index, from the leaf up. */
  function ProofFor(n: Node, index: int): seq<Step>
    decreases n
  {
    match n
    case Leaf(_, _) => []
    case Parent(left, right, _, _) =>
      if index < left.Width() then ProofFor(left, index) + [Right(right.hash)]
      else ProofFor(right, index - left.Width()) + [Left(left.hash)]
  }

  /** The proof for the block at an index, from the blocks alone: on the way up, the hash of the part the
      block is not in, on the side where that part lies. */
  function AuditPath(h: Hash, blocks: seq<string>, index: nat): seq<Step>
    requires index < |blocks|
    decreases |blocks|
  {
    if |blocks| == 1 then []
    else
      var k := Split(|blocks|);
      if index < k then AuditPath(h, blocks[..k], index) + [Right(TreeHash(h, blocks[k..]))]
      else AuditPath(h, blocks[k..], index - k) + [Left(TreeHash(h, blocks[..k]))]
  }

  lemma {:induction false} ProofIsAuditPath(h: Hash, blocks: seq<string>, index: nat)
    requires index < |blocks|
    ensures ProofFor(Build(h, LeafNodes(h, blocks)), index) == AuditPath(h, blocks, index)
    decreases |blocks|
  {
    if |blocks| > 1 {
      var k := Split(|blocks|);
      var left, right := blocks[..k], blocks[k..];
      BuildSplits(h, LeafNodes(h, blocks));
      LeafNodesSplit(h, blocks, k);
      LeavesOfLeafNodes(h, left);
      BuildKeepsLeaves(h, LeafNodes(h, left));
      WidthCountsLeaves(h, Build(h, LeafNodes(h, left)));
      RootIsTreeHash(h, left);
      RootIsTreeHash(h, right);
      if index < k {
        ProofIsAuditPath(h, left, index);
      } else {
        ProofIsAuditPath(h, right, index - k);
      }
    }
  }

  function Climb(h: Hash, hash: string, proof: seq<Step>): string {
    if proof == [] then hash
    else
      h(Combined(proof[|proof| - 1], Climb(h, hash, proof[..|proof| - 1])))
  }

  function Combined(step: Step, below: string): string {
    if step.Left? then step.hash + below else below + step.hash
  }

  /** Climbing from a leaf's hash along its proof arrives at the root's hash, for any hash function. */
  lemma {:induction false} ProofClimbsToRoot(h: Hash, n: Node, index: nat)
    requires WellMade(h, n) && index < |Leaves(n)|
    ensures Climb(h, h(Leaves(n)[index]), ProofFor(n, index)) == n.hash
  {
    if n.Parent? {
      WidthCountsLeaves(h, n.left);
      var w := n.left.Width();
      var below := if index < w then ProofFor(n.left, index) else ProofFor(n.right, index - w);
      assert ProofFor(n, index)[..|below|] == below;
      if index < w {
        ProofClimbsToRoot(h, n.left, index);
      } else {
        ProofClimbsToRoot(h, n.right, index - w);
      }
    }
  }

  function Height(n: Node): nat {
    match n
    case Leaf(_, _) => 0
    case Parent(left, right, _, _) => 1 + if Height(left) > Height(right) then Height(left) else Height(right)
  }

  function Levels(count: nat): nat
    requires count > 0
  {
    if count == 1 then 0 else 1 + Levels((count + 1) / 2)
  }

  function Power2(k: nat): nat {
    if k == 0 then 1 else 2 * Power2(k - 1)
  }

  lemma {:induction false} LevelsBound(count: nat)
    requires count > 1
    ensures Power2(Levels(count) - 1) < count
  {
    if count > 2 {
      LevelsBound((count + 1) / 2);
    }
  }

  lemma {:induction false} LevelRaises(h: Hash, nodes: seq<Node>, k: nat)
    requires forall i | 0 <= i < |nodes| :: Height(nodes[i]) <= k
    ensures forall i | 0 <= i < |Level(h, nodes)| :: Height(Level(h, nodes)[i]) <= k + 1
  {
    if |nodes| >= 2 {
      LevelRaises(h, nodes[2..], k);
    }
  }

  lemma {:induction false} BuildHeight(h: Hash, nodes: seq<Node>, k: nat)
    requires nodes != [] && forall i | 0 <= i < |nodes| :: Height(nodes[i]) <= k
    ensures Height(Build(h, nodes)) <= k + Levels(|nodes|)
    decreases |nodes|
  {
    if |nodes| > 1 {
      LevelRaises(h, nodes, k);
      BuildHeight(h, Level(h, nodes), k + 1);
    }
  }

  lemma {:induction false} ProofLength(n: Node, index: int)
    ensures |ProofFor(n, index)| <= Height(n)
  {
    if n.Parent? {
      ProofLength(n.left, index);
      ProofLength(n.right, index - n.left.Width());
    }
  }

  lemma {:induction false} PowerGrows(j: nat, k: nat)
    requires j <= k
    ensures Power2(j) <= Power2(k)
  {
    if j < k {
      PowerGrows(j, k - 1);
    }
  }

  /** A non-empty proof of length k in a tree of n blocks has 2^(k-1) < n, promotion or not. */
  lemma ProofsAreShort(h: Hash, tree: MerkleTree, blocks: seq<string>, index: nat)
    requires Holds(h, tree, blocks) && index < |blocks|
    ensures var k := |ProofFor(tree.root, index)|; k > 0 ==> Power2(k - 1) < |blocks|
  {
    var k := |ProofFor(tree.root, index)|;
    ProofLength(tree.root, index);
    BuildHeight(h, tree.leaves, 0);
    if k > 0 {
      assert |blocks| > 1;
      LevelsBound(|blocks|);
      PowerGrows(k - 1, Levels(|blocks|) - 1);
    }
  }

  method GetProofRecursive(h: Hash, node: Node, targetIdx: nat, proof: seq<Step>) returns (proof': seq<Step>)
    ensures proof' == ProofFor(node, targetIdx) + proof
    decreases node
  {
    if node.Leaf? {
      return proof;
    }
    var leftWidth := node.left.Width();
    if targetIdx < leftWidth {
      proof' := [Right(node.right.hash)] + proof;
      proof' := GetProofRecursive(h, node.left, targetIdx, proof');
    } else {
      proof' := [Left(node.left.hash)] + proof;
      proof' := GetProofRecursive(h, node.right, targetIdx - leftWidth, proof');
    }
  }

  lemma ProofOfBlock(h: Hash, tree: MerkleTree, blocks: seq<string>, index: nat)
    requires Holds(h, tree, blocks) && index < |blocks|
    ensures var proof := ProofFor(tree.root, index);
            && Climb(h, h(blocks[index]), proof) == tree.root.hash
            && (|proof| > 0 ==> Power2(|proof| - 1) < |blocks|)
            && proof == AuditPath(h, blocks, index)
  {
    ProofClimbsToRoot(h, tree.root, index);
    ProofsAreShort(h, tree, blocks, index);
    ProofIsAuditPath(h, blocks, index);
  }

  /** `generate_proof`: fails exactly for elements not in the tree; otherwise the proof verifies and
      is logarithmically short. */
  method GenerateProof(h: Hash, tree: MerkleTree, element: string, ghost blocks: seq<string>)
      returns (proof: Result<seq<Step>, Error>)
    requires Holds(h, tree, blocks)
    ensures proof.Failure? <==> element !in blocks
    ensures proof.Success? ==> Climb(h, h(element), proof.value) == tree.root.hash
    ensures proof.Success? ==> exists i :: 0 <= i < |blocks| && blocks[i] == element && element !in blocks[..i]
                                           && proof.value == AuditPath(h, blocks, i)
    ensures proof.Success? && |proof.value| > 0 ==> Power2(|proof.value| - 1) < |blocks|
  {
    hide WellMade, Build, Leaves, Climb, ProofFor, Power2, AuditPath;
    var index := 0;
    while index < |tree.leaves| && tree.leaves[index].data != element
      invariant 0 <= index <= |tree.leaves|
      invariant element !in blocks[..index]
    {
      index := index + 1;
    }
    if index == |tree.leaves| {
      assert blocks[..index] == blocks;
      return Failure(ValueError);
    }
    ProofOfBlock(h, tree, blocks, index);
    assert ProofFor(tree.root, index) + [] == ProofFor(tree.root, index);
    hide Holds, LeafNodes;
    var steps := GetProofRecursive(h, tree.root, index, []);
    return Success(steps);
  }

  method VerifyProof(h: Hash, rootHash: string, element: string, proof: seq<Step>) returns (valid: bool)
    ensures valid <==> Climb(h, h(element), proof) == rootHash
  {
    var currentHash := h(element);
    for i := 0 to |proof|
      invariant currentHash == Climb(h, h(element), proof[..i])
    {
      assert proof[..i + 1][..i] == proof[..i];
      var step := proof[i];
      var combined := if step.Left? then step.hash + currentHash else currentHash + step.hash;
      currentHash := h(combined);
    }
    assert proof[..|proof|] == proof;
    return currentHash == rootHash;
  }

  // ----- What an accepted proof proves -----

  /** What step i of a climb hashes, counted from 1; the element itself for i = 0. */
  function TextAt(h: Hash, element: string, proof: seq<Step>, i: nat): string
    requires i <= |proof|
  {
    if i == 0 then element else Combined(proof[i - 1], Climb(h, h(element), proof[..i - 1]))
  }

  function ClimbTexts(h: Hash, element: string, proof: seq<Step>): set<string> {
    set i | 0 <= i <= |proof| :: TextAt(h, element, proof, i)
  }

  lemma ClimbPrefix(h: Hash, element: string, proof: seq<Step>, n: nat)
    requires n <= |proof|
    ensures forall i | 0 <= i <= n :: TextAt(h, element, proof[..n], i) == TextAt(h, element, proof, i)
    ensures ClimbTexts(h, element, proof[..n]) <= ClimbTexts(h, element, proof)
  {
    hide Climb, Combined;
    forall i | 0 <= i <= n ensures TextAt(h, element, proof[..n], i) == TextAt(h, element, proof, i) {
      if i > 0 {
        assert proof[..n][..i - 1] == proof[..i - 1];
      }
    }
  }

  /** Without collisions among the strings hashed, an accepted element is hashed in the tree, as a block
      or as two sibling hashes in a row, unless a step on the way hashes a block itself. Leaves and
      inner nodes are hashed alike, so neither exception can be dropped: see InnerNodePassesForElement
      and BlockPassesForStep. */
  lemma {:induction false} AcceptedIsHashed(h: Hash, n: Node, element: string, proof: seq<Step>, strings: set<string>)
    requires WellMade(h, n) && Climb(h, h(element), proof) == n.hash
    requires CollisionFree(h, strings) && Hashed(n) <= strings && ClimbTexts(h, element, proof) <= strings
    ensures element in Hashed(n) || exists i | 0 < i <= |proof| :: TextAt(h, element, proof, i) in Leaves(n)
    decreases |proof|
  {
    TopIsHashed(h, n, element, proof, strings);
    if |proof| > 0 && n.Parent? {
      var below := proof[..|proof| - 1];
      var child := ClimbedFrom(h, n, element, proof, strings);
      ClimbPrefix(h, element, proof, |proof| - 1);
      hide *;
      AcceptedIsHashed(h, child, element, below, strings);
      if i :| 0 < i <= |below| && TextAt(h, element, below, i) in Leaves(child) {
        assert TextAt(h, element, proof, i) in Leaves(n);
      }
    } else {
      assert proof != [] ==> TextAt(h, element, proof, |proof|) in Leaves(n);
    }
  }

  /** A climb that arrives at an inner node came through one of its children. */
  lemma ClimbedFrom(h: Hash, n: Node, element: string, proof: seq<Step>, strings: set<string>) returns (child: Node)
    requires WellMade(h, n) && Climb(h, h(element), proof) == n.hash && n.Parent? && proof != []
    requires CollisionFree(h, strings) && Hashed(n) <= strings && ClimbTexts(h, element, proof) <= strings
    ensures WellMade(h, child) && Hashed(child) <= Hashed(n) && forall d | d in Leaves(child) :: d in Leaves(n)
    ensures Climb(h, h(element), proof[..|proof| - 1]) == child.hash
  {
    hide *;
    var k := |proof| - 1;
    var below, step := proof[..k], proof[k];
    TopIsHashed(h, n, element, proof, strings);
    LastText(h, element, proof);
    ClimbPrefix(h, element, proof, k);
    ClimbIsHash(h, element, below);
    child := ChildOfStep(h, n, step, TextAt(h, element, below, k), strings);
  }

  lemma LastText(h: Hash, element: string, proof: seq<Step>)
    requires proof != []
    ensures var k := |proof| - 1;
            TextAt(h, element, proof, k + 1) == Combined(proof[k], Climb(h, h(element), proof[..k]))
  {
  }

  lemma ChildOfStep(h: Hash, n: Node, step: Step, under: string, strings: set<string>) returns (child: Node)
    requires WellMade(h, n) && n.Parent? && Combined(step, h(under)) == n.left.hash + n.right.hash
    requires CollisionFree(h, strings) && Hashed(n) <= strings && under in strings
    ensures WellMade(h, child) && Hashed(child) <= Hashed(n) && forall d | d in Leaves(child) :: d in Leaves(n)
    ensures h(under) == child.hash
  {
    SiblingHashes(h, n, step, under, strings);
    child := if step.Left? then n.right else n.left;
  }

  lemma ClimbIsHash(h: Hash, element: string, proof: seq<Step>)
    ensures var top := TextAt(h, element, proof, |proof|);
            top in ClimbTexts(h, element, proof) && Climb(h, h(element), proof) == h(top)
  {
  }

  /** The last string hashed on the way to a node is the one hashed to make it. */
  lemma TopIsHashed(h: Hash, n: Node, element: string, proof: seq<Step>, strings: set<string>)
    requires WellMade(h, n) && Climb(h, h(element), proof) == n.hash
    requires CollisionFree(h, strings) && Hashed(n) <= strings && ClimbTexts(h, element, proof) <= strings
    ensures TextAt(h, element, proof, |proof|) == if n.Leaf? then n.data else n.left.hash + n.right.hash
    ensures TextAt(h, element, proof, |proof|) in Hashed(n)
  {
    ClimbIsHash(h, element, proof);
    hide Climb, TextAt, ClimbTexts;
    var x := HashIsOfHashed(h, n);
    assert x in strings && TextAt(h, element, proof, |proof|) in strings;
  }

  /** Two hashes in a row can be told apart by their length. */
  lemma SiblingHashes(h: Hash, n: Node, step: Step, under: string, strings: set<string>)
    requires WellMade(h, n) && n.Parent? && Combined(step, h(under)) == n.left.hash + n.right.hash
    requires CollisionFree(h, strings) && Hashed(n) <= strings && under in strings
    ensures h(under) == if step.Left? then n.right.hash else n.left.hash
  {
    var p := HashIsOfHashed(h, n.left);
    var q := HashIsOfHashed(h, n.right);
    assert p in strings && q in strings;
    var length, both := |h(under)|, n.left.hash + n.right.hash;
    assert |n.left.hash| == |n.right.hash| == length;
    if step.Left? {
      assert h(under) == Combined(step, h(under))[|step.hash|..] == both[length..];
    } else {
      assert h(under) == Combined(step, h(under))[..length] == both[..length];
    }
  }

  /** Conversely every string hashed in the tree has a proof that is accepted, for any hash; its steps are
      hashes of the tree, and climbing along it hashes nothing that is not hashed in the tree. */
  lemma {:induction false} HashedIsAccepted(h: Hash, n: Node, x: string) returns (proof: seq<Step>)
    requires WellMade(h, n) && x in Hashed(n)
    ensures Climb(h, h(x), proof) == n.hash
    ensures ClimbTexts(h, x, proof) <= Hashed(n)
    ensures forall step | step in proof :: IsHashIn(h, Hashed(n), step.hash)
  {
    if h(x) == n.hash {
      proof := [];
    } else {
      var inLeft := x in Hashed(n.left);
      var child, sibling := if inLeft then n.left else n.right, if inLeft then n.right else n.left;
      var below := HashedIsAccepted(h, child, x);
      var text := HashIsOfHashed(h, sibling);
      var step := if inLeft then Right(sibling.hash) else Left(sibling.hash);
      assert Combined(step, child.hash) == n.left.hash + n.right.hash;
      OneStepOn(h, x, below, step);
      proof := below + [step];
    }
  }

  ghost predicate IsHashIn(h: Hash, strings: set<string>, hash: string) {
    exists x :: x in strings && hash == h(x)
  }

  lemma OneStepOn(h: Hash, element: string, proof: seq<Step>, step: Step)
    ensures var text := Combined(step, Climb(h, h(element), proof));
            && Climb(h, h(element), proof + [step]) == h(text)
            && ClimbTexts(h, element, proof + [step]) == ClimbTexts(h, element, proof) + {text}
  {
    var all := proof + [step];
    assert all[..|proof|] == proof;
    ClimbPrefix(h, element, all, |proof|);
    var text := TextAt(h, element, all, |all|);
    hide TextAt, Climb, Combined;
    forall x ensures x in ClimbTexts(h, element, all) <==> x in ClimbTexts(h, element, proof) || x == text {
      if i :| 0 <= i <= |all| && x == TextAt(h, element, all, i) {
        assert i <= |proof| ==> x == TextAt(h, element, proof, i);
      }
      if i :| 0 <= i <= |proof| && x == TextAt(h, element, proof, i) {
        assert x == TextAt(h, element, all, i);
      }
      assert TextAt(h, element, all, |all|) in ClimbTexts(h, element, all);
    }
  }

  /** No collisions among the strings, and hashes of one length. */
  ghost predicate IsClean(h: Hash, strings: set<string>, length: nat) {
    CollisionFree(h, strings) && forall x | x in strings :: |h(x)| == length
  }

  /** An accepted proof of steps as long as hashes, with no collision in the tree or on the way up. */
  ghost predicate Passes(h: Hash, root: Node, element: string, proof: seq<Step>, length: nat) {
    && IsClean(h, Hashed(root) + ClimbTexts(h, element, proof), length)
    && (forall step | step in proof :: |step.hash| == length)
    && Climb(h, h(element), proof) == root.hash
  }

  ghost predicate NoneTwiceAsLong(blocks: seq<string>, length: nat) {
    forall b | b in blocks :: |b| != 2 * length
  }

  lemma StepTextsAreLong(h: Hash, root: Node, element: string, proof: seq<Step>, length: nat, i: nat)
    requires Passes(h, root, element, proof, length) && 0 < i <= |proof|
    ensures |TextAt(h, element, proof, i)| == 2 * length
  {
    var below := proof[..i - 1];
    ClimbPrefix(h, element, proof, i - 1);
    ClimbIsHash(h, element, below);
    assert proof[i - 1] in proof;
    assert TextAt(h, element, below, i - 1) in Hashed(root) + ClimbTexts(h, element, proof);
  }

  /** Where no block is as long as two hashes, exactly the strings hashed in the tree pass, the two hashes of
      every pair of siblings included. */
  lemma PassesIffHashed(h: Hash, tree: MerkleTree, blocks: seq<string>, element: string, length: nat)
    requires Holds(h, tree, blocks) && IsClean(h, Hashed(tree.root), length) && NoneTwiceAsLong(blocks, length)
    ensures (exists proof :: Passes(h, tree.root, element, proof, length)) <==> element in Hashed(tree.root)
  {
    hide Climb, ClimbTexts, TextAt, Hashed, WellMade, Leaves, Build;
    if proof :| Passes(h, tree.root, element, proof, length) {
      AcceptedIsHashed(h, tree.root, element, proof, Hashed(tree.root) + ClimbTexts(h, element, proof));
      forall i | 0 < i <= |proof| ensures TextAt(h, element, proof, i) !in blocks {
        StepTextsAreLong(h, tree.root, element, proof, length, i);
      }
    }
    if element in Hashed(tree.root) {
      var proof := HashedIsAccepted(h, tree.root, element);
      var strings := Hashed(tree.root);
      assert strings + ClimbTexts(h, element, proof) == strings;
      forall step | step in proof ensures |step.hash| == length {
        assert IsHashIn(h, strings, step.hash);
      }
      assert Passes(h, tree.root, element, proof, length);
    }
  }

  /** Where no block is as long as two hashes, nothing but blocks passes exactly if there is only one block:
      every inner node passes for an element that the tree does not hold. */
  lemma OnlyBlocksPassIff(h: Hash, tree: MerkleTree, blocks: seq<string>, length: nat)
    requires Holds(h, tree, blocks) && IsClean(h, Hashed(tree.root), length) && NoneTwiceAsLong(blocks, length)
    ensures (forall element, proof | Passes(h, tree.root, element, proof, length) :: element in blocks) <==>
        |blocks| == 1
  {
    var root := tree.root;
    hide Climb, ClimbTexts, TextAt, Build;
    if |blocks| == 1 {
      OneBlockIsLeaf(h, root);
      forall element, proof | Passes(h, root, element, proof, length) ensures element in blocks {
        PassesIffHashed(h, tree, blocks, element, length);
      }
    } else {
      var x := InnerText(h, root, length);
      PassesIffHashed(h, tree, blocks, x, length);
      var proof :| Passes(h, root, x, proof, length);
    }
  }

  lemma OneBlockIsLeaf(h: Hash, n: Node)
    requires WellMade(h, n) && |Leaves(n)| == 1
    ensures n.Leaf? && Hashed(n) == {n.data} && Leaves(n) == [n.data]
  {
  }

  lemma InnerText(h: Hash, n: Node, length: nat) returns (x: string)
    requires WellMade(h, n) && |Leaves(n)| > 1 && IsClean(h, Hashed(n), length)
    ensures x in Hashed(n) && |x| == 2 * length
  {
    x := n.left.hash + n.right.hash;
    var p := HashIsOfHashed(h, n.left);
    var q := HashIsOfHashed(h, n.right);
    assert p in Hashed(n) && q in Hashed(n);
  }

  /** An element that is not as long as two hashes either passes only if it is a block. */
  lemma AcceptedIsBlock(h: Hash, tree: MerkleTree, blocks: seq<string>, element: string, proof: seq<Step>, length: nat)
    requires Holds(h, tree, blocks) && NoneTwiceAsLong(blocks, length) && |element| != 2 * length
    ensures Passes(h, tree.root, element, proof, length) ==> element in blocks
  {
    if Passes(h, tree.root, element, proof, length) {
      hide Climb, ClimbTexts, TextAt, Build;
      PassesIffHashed(h, tree, blocks, element, length);
      HashedLengths(h, tree.root, element, Hashed(tree.root), length);
    }
  }

  /** A hashed string is a block or two hashes long. */
  lemma {:induction false} HashedLengths(h: Hash, n: Node, x: string, strings: set<string>, length: nat)
    requires WellMade(h, n) && Hashed(n) <= strings && forall y | y in strings :: |h(y)| == length
    ensures x in Hashed(n) ==> x in Leaves(n) || |x| == 2 * length
  {
    if n.Parent? {
      HashedLengths(h, n.left, x, strings, length);
      HashedLengths(h, n.right, x, strings, length);
      var p := HashIsOfHashed(h, n.left);
      var q := HashIsOfHashed(h, n.right);
      assert p in strings && q in strings;
    }
  }

  /** The two hashes of a tree of two blocks pass for an element, with the empty proof; no collision is
      needed. */
  lemma InnerNodePassesForElement(h: Hash, tree: MerkleTree, a: string, b: string)
    requires Holds(h, tree, [a, b])
    ensures Climb(h, h(h(a) + h(b)), []) == tree.root.hash
  {
    assert tree.leaves == [NewLeaf(h, a), NewLeaf(h, b)];
    var parent := NewParent(h, NewLeaf(h, a), NewLeaf(h, b));
    assert tree.leaves[2..] == [] && Level(h, []) == [];
    assert Level(h, tree.leaves) == [parent] + [] == [parent];
    assert Build(h, tree.leaves) == Build(h, [parent]) == parent;
  }

  /** A block that ends in the hash of a string passes for a step: the string is accepted, though only the
      block is hashed in the tree. */
  lemma BlockPassesForStep(h: Hash, tree: MerkleTree, front: string, element: string)
    requires Holds(h, tree, [front + h(element)]) && element != front + h(element)
    ensures Climb(h, h(element), [Left(front)]) == tree.root.hash
    ensures element !in Hashed(tree.root) && TextAt(h, element, [Left(front)], 1) in Leaves(tree.root)
  {
    OneBlockIsLeaf(h, tree.root);
    assert [Left(front)][..0] == [];
  }
}
