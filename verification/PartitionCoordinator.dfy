/** The network partition coordinator (partition_coordinator.py): a connectivity matrix kept up to
    date step by step, against its definition by the partitions in force and the crashed nodes. */
module PartitionCoordinators {
  import opened Wrappers

  datatype Node = Node(name: string)

  datatype Partition = Partition(groups: seq<seq<Node>>, createdAt: real, duration: Option<real>, autoHeal: bool,
      active: bool) {
    /** A duration of zero, like none at all, never ends. */
    predicate HealsItself() {
      autoHeal && duration.Some? && duration.value != 0.0
    }

    predicate ShouldHeal(now: real) {
      active && autoHeal && duration.Some? && duration.value != 0.0 && now - createdAt >= duration.value
    }
  }

  datatype Error = ValueError

  type Matrix = map<(Node, Node), bool>

  // ----- What the matrix should say -----

  ghost predicate GroupsSeparate(groups: seq<seq<Node>>, a: Node, b: Node) {
    exists i, j :: 0 <= i < |groups| && 0 <= j < |groups| && i != j && a in groups[i] && b in groups[j]
  }

  /** Some partition in force puts the two nodes into different groups. */
  ghost predicate Separated(partitions: map<nat, Partition>, a: Node, b: Node) {
    exists p :: p in partitions && partitions[p].active && GroupsSeparate(partitions[p].groups, a, b)
  }

  /** Known nodes only, and none named twice. */
  ghost predicate ValidGroups(nodes: set<Node>, groups: seq<seq<Node>>) {
    && (forall i, x | 0 <= i < |groups| && x in groups[i] :: x in nodes)
    && (forall i, j, x | 0 <= i < j < |groups| && x in groups[i] :: x !in groups[j])
    && (forall i | 0 <= i < |groups| :: NoRepeats(groups[i]))
  }

  ghost predicate NoRepeats(group: seq<Node>) {
    forall k, l | 0 <= k < l < |group| :: group[k] != group[l]
  }

  ghost predicate IsMatrix(nodes: set<Node>, m: Matrix) {
    forall a, b :: (a, b) in m <==> a in nodes && b in nodes && a != b
  }

  /** m' is m with the entries between different groups switched off. */
  ghost predicate IsCut(m: Matrix, groups: seq<seq<Node>>, m': Matrix) {
    m'.Keys == m.Keys && forall a, b | (a, b) in m :: m'[(a, b)] <==> m[(a, b)] && !GroupsSeparate(groups, a, b)
  }

  // ----- Switching entries -----

  /** Every entry is as before, or it was switched off for a pair that the groups separate. */
  ghost predicate OnlyCut(m: Matrix, groups: seq<seq<Node>>, m': Matrix) {
    m'.Keys == m.Keys && forall a, b | (a, b) in m ::
        m'[(a, b)] == m[(a, b)] || (!m'[(a, b)] && GroupsSeparate(groups, a, b))
  }

  ghost predicate IsOff(m: Matrix, a: Node, b: Node) {
    (a, b) in m ==> !m[(a, b)]
  }

  method CutGroups(m: Matrix, groups: seq<seq<Node>>, i: nat, j: nat) returns (m': Matrix)
    requires i < |groups| && j < |groups| && i != j
    requires forall a, b | a in groups[i] && b in groups[j] :: (a, b) in m && (b, a) in m
    ensures OnlyCut(m, groups, m')
    ensures forall a, b | IsOff(m, a, b) :: IsOff(m', a, b)
    ensures forall a, b | a in groups[i] && b in groups[j] :: IsOff(m', a, b) && IsOff(m', b, a)
  {
    m' := m;
    for k := 0 to |groups[i]|
      invariant OnlyCut(m, groups, m')
      invariant forall a, b | IsOff(m, a, b) :: IsOff(m', a, b)
      invariant forall a, b | a in groups[i][..k] && b in groups[j] :: IsOff(m', a, b) && IsOff(m', b, a)
    {
      var x := groups[i][k];
      assert x in groups[i];
      for l := 0 to |groups[j]|
        invariant OnlyCut(m, groups, m')
        invariant forall a, b | IsOff(m, a, b) :: IsOff(m', a, b)
        invariant forall a, b | a in groups[i][..k] && b in groups[j] :: IsOff(m', a, b) && IsOff(m', b, a)
        invariant forall b | b in groups[j][..l] :: IsOff(m', x, b) && IsOff(m', b, x)
      {
        var y := groups[j][l];
        assert y in groups[j];
        assert GroupsSeparate(groups, x, y) && GroupsSeparate(groups, y, x);
        m' := m'[(x, y) := false][(y, x) := false];
        assert groups[j][..l + 1] == groups[j][..l] + [y];
      }
      assert groups[j][..|groups[j]|] == groups[j];
      assert groups[i][..k + 1] == groups[i][..k] + [x];
    }
    assert groups[i][..|groups[i]|] == groups[i];
  }

  ghost predicate PairIsOff(m: Matrix, groups: seq<seq<Node>>, i: nat, j: nat)
    requires i < |groups| && j < |groups|
  {
    forall a, b | a in groups[i] && b in groups[j] :: IsOff(m, a, b)
  }

  /** `_apply_partition`. */
  method ApplyPartition(m: Matrix, nodes: set<Node>, groups: seq<seq<Node>>) returns (m': Matrix)
    requires IsMatrix(nodes, m) && ValidGroups(nodes, groups)
    ensures IsCut(m, groups, m') && IsMatrix(nodes, m')
  {
    hide OnlyCut, ValidGroups, GroupsSeparate;
    m' := m;
    NothingCut(m, groups);
    for i := 0 to |groups|
      invariant OnlyCut(m, groups, m') && IsMatrix(nodes, m')
      invariant forall i', j' | 0 <= i' < i && 0 <= j' < |groups| && i' != j' :: PairIsOff(m', groups, i', j')
    {
      for j := 0 to |groups|
        invariant OnlyCut(m, groups, m') && IsMatrix(nodes, m')
        invariant forall i', j' | 0 <= i' < i && 0 <= j' < |groups| && i' != j' :: PairIsOff(m', groups, i', j')
        invariant forall j' | 0 <= j' < j && j' != i :: PairIsOff(m', groups, i, j')
      {
        if i != j {
          EntriesExist(nodes, m', groups, i, j);
          var before := m';
          m' := CutGroups(m', groups, i, j);
          CutsCompose(m, groups, before, m');
          PairsStayOff(before, groups, m');
          assert PairIsOff(m', groups, i, j);
          KeysMakeMatrix(nodes, before, groups, m');
        }
      }
    }
    AllPairsCut(m, groups, m');
    KeysMakeMatrix(nodes, m, groups, m');
  }

  lemma PairsStayOff(m: Matrix, groups: seq<seq<Node>>, m': Matrix)
    requires forall a, b | IsOff(m, a, b) :: IsOff(m', a, b)
    ensures forall i, j | 0 <= i < |groups| && 0 <= j < |groups| && PairIsOff(m, groups, i, j) ::
        PairIsOff(m', groups, i, j)
  {
    hide IsOff;
  }

  lemma NothingCut(m: Matrix, groups: seq<seq<Node>>)
    ensures OnlyCut(m, groups, m)
  {
  }

  lemma EntriesExist(nodes: set<Node>, m: Matrix, groups: seq<seq<Node>>, i: nat, j: nat)
    requires IsMatrix(nodes, m) && ValidGroups(nodes, groups) && i < |groups| && j < |groups| && i != j
    ensures forall a, b | a in groups[i] && b in groups[j] :: (a, b) in m && (b, a) in m
  {
    forall a, b | a in groups[i] && b in groups[j] ensures a != b {
      if i < j {
        assert a !in groups[j];
      } else {
        assert b !in groups[i];
      }
    }
  }

  lemma CutsCompose(m: Matrix, groups: seq<seq<Node>>, m1: Matrix, m2: Matrix)
    requires OnlyCut(m, groups, m1) && OnlyCut(m1, groups, m2)
    ensures OnlyCut(m, groups, m2)
  {
    forall a, b | (a, b) in m ensures m2[(a, b)] == m[(a, b)] || (!m2[(a, b)] && GroupsSeparate(groups, a, b)) {
      assert (a, b) in m1;
    }
  }

  lemma KeysMakeMatrix(nodes: set<Node>, m: Matrix, groups: seq<seq<Node>>, m': Matrix)
    requires IsMatrix(nodes, m) && OnlyCut(m, groups, m')
    ensures IsMatrix(nodes, m')
  {
    assert forall a, b :: (a, b) in m' <==> (a, b) in m.Keys;
  }

  lemma AllPairsCut(m: Matrix, groups: seq<seq<Node>>, m': Matrix)
    requires OnlyCut(m, groups, m')
    requires forall i, j | 0 <= i < |groups| && 0 <= j < |groups| && i != j :: PairIsOff(m', groups, i, j)
    ensures IsCut(m, groups, m')
  {
    forall a, b | (a, b) in m ensures m'[(a, b)] <==> m[(a, b)] && !GroupsSeparate(groups, a, b) {
      assert (a, b) in m';
      if GroupsSeparate(groups, a, b) {
        var i, j :| 0 <= i < |groups| && 0 <= j < |groups| && i != j && a in groups[i] && b in groups[j];
        assert PairIsOff(m', groups, i, j);
        assert IsOff(m', a, b);
      }
    }
  }

  /** One node's row and column set to a value. */
  ghost predicate RowSet(m: Matrix, x: Node, value: bool, m': Matrix) {
    m'.Keys == m.Keys && forall a, b | (a, b) in m :: m'[(a, b)] == if a == x || b == x then value else m[(a, b)]
  }

  method SetRow(m: Matrix, nodes: set<Node>, x: Node, value: bool) returns (m': Matrix)
    requires IsMatrix(nodes, m) && x in nodes
    ensures RowSet(m, x, value, m') && IsMatrix(nodes, m')
  {
    m' := m;
    var left := nodes;
    while left != {}
      invariant left <= nodes && m'.Keys == m.Keys
      invariant forall a, b | (a, b) in m ::
                  m'[(a, b)] == if (a == x && b !in left) || (b == x && a !in left) then value else m[(a, b)]
      decreases |left|
    {
      var other :| other in left;
      left := left - {other};
      if other != x {
        m' := m'[(x, other) := value][(other, x) := value];
      }
    }
    assert forall a, b :: (a, b) in m' <==> (a, b) in m.Keys;
  }

  /** All partitions in force applied to a matrix. */
  ghost predicate IsCutByAll(m: Matrix, partitions: map<nat, Partition>, done: set<nat>, m': Matrix) {
    m'.Keys == m.Keys && forall a, b | (a, b) in m :: m'[(a, b)] <==>
        m[(a, b)] && !SeparatedWithin(partitions, done, a, b)
  }

  ghost predicate SeparatedWithin(partitions: map<nat, Partition>, done: set<nat>, a: Node, b: Node) {
    exists p | p in done :: p in partitions && partitions[p].active && GroupsSeparate(partitions[p].groups, a, b)
  }

  method ApplyActive(m: Matrix, nodes: set<Node>, partitions: map<nat, Partition>) returns (m': Matrix)
    requires IsMatrix(nodes, m) && forall p | p in partitions :: ValidGroups(nodes, partitions[p].groups)
    ensures IsMatrix(nodes, m') && m'.Keys == m.Keys
    ensures forall a, b | (a, b) in m :: m'[(a, b)] <==> m[(a, b)] && !Separated(partitions, a, b)
  {
    hide ValidGroups, GroupsSeparate, IsMatrix;
    m' := m;
    var left := partitions.Keys;
    while left != {}
      invariant left <= partitions.Keys && IsMatrix(nodes, m')
      invariant IsCutByAll(m, partitions, partitions.Keys - left, m')
      decreases |left|
    {
      var p :| p in left;
      var done := partitions.Keys - left;
      left := left - {p};
      assert partitions.Keys - left == done + {p};
      if partitions[p].active {
        var before := m';
        m' := ApplyPartition(m', nodes, partitions[p].groups);
        OneMoreCut(m, partitions, done, before, p, m');
      } else {
        OneMoreHealed(m, partitions, done, m', p);
      }
    }
    assert partitions.Keys - {} == partitions.Keys;
  }

  lemma OneMoreCut(m: Matrix, partitions: map<nat, Partition>, done: set<nat>, m1: Matrix, p: nat, m2: Matrix)
    requires IsCutByAll(m, partitions, done, m1) && p in partitions && partitions[p].active
    requires IsCut(m1, partitions[p].groups, m2)
    ensures IsCutByAll(m, partitions, done + {p}, m2)
  {
    hide GroupsSeparate;
    forall a, b | (a, b) in m ensures m2[(a, b)] <==> m[(a, b)] && !SeparatedWithin(partitions, done + {p}, a, b) {
      assert (a, b) in m1;
      assert SeparatedWithin(partitions, done + {p}, a, b) <==>
             SeparatedWithin(partitions, done, a, b) || GroupsSeparate(partitions[p].groups, a, b);
    }
  }

  lemma OneMoreHealed(m: Matrix, partitions: map<nat, Partition>, done: set<nat>, m1: Matrix, p: nat)
    requires IsCutByAll(m, partitions, done, m1) && p in partitions && !partitions[p].active
    ensures IsCutByAll(m, partitions, done + {p}, m1)
  {
    hide GroupsSeparate;
    forall a, b | (a, b) in m ensures m1[(a, b)] <==> m[(a, b)] && !SeparatedWithin(partitions, done + {p}, a, b) {
      assert SeparatedWithin(partitions, done + {p}, a, b) <==> SeparatedWithin(partitions, done, a, b);
    }
  }

  /** `_initialize_connectivity`, over whatever entries there are. */
  method FullMatrix(nodes: set<Node>) returns (m: Matrix)
    ensures IsMatrix(nodes, m) && forall pair | pair in m :: m[pair]
  {
    m := map[];
    var lefts := nodes;
    while lefts != {}
      invariant lefts <= nodes && forall pair | pair in m :: m[pair]
      invariant forall a, b :: (a, b) in m <==> a in nodes && a !in lefts && b in nodes && a != b
      decreases |lefts|
    {
      var x :| x in lefts;
      lefts := lefts - {x};
      var rights := nodes;
      while rights != {}
        invariant rights <= nodes && forall pair | pair in m :: m[pair]
        invariant forall a, b :: (a, b) in m <==>
                    a in nodes && a !in lefts && b in nodes && a != b && (a == x ==> b !in rights)
        decreases |rights|
      {
        var y :| y in rights;
        rights := rights - {y};
        if x != y {
          m := m[(x, y) := true];
        }
      }
    }
  }

  /** The matrix is right wherever it is consulted: between nodes that have not crashed. Entries
      toward crashed nodes may be on or off. */
  ghost predicate IsRight(nodes: set<Node>, partitions: map<nat, Partition>, crashed: set<Node>, m: Matrix) {
    && IsMatrix(nodes, m)
    && forall a, b | (a, b) in m && a !in crashed && b !in crashed :: m[(a, b)] <==> !Separated(partitions, a, b)
  }

  // ----- The coordinator -----

  class PartitionCoordinator {
    const nodes: set<Node>
    var partitions: map<nat, Partition>
    var crashedNodes: set<Node>
    var partitionCounter: nat
    var connectivity: Matrix

    ghost predicate Valid()
      reads this
    {
      && IsRight(nodes, partitions, crashedNodes, connectivity)
      && crashedNodes <= nodes
      && (forall p | p in partitions :: ValidGroups(nodes, partitions[p].groups) && p <= partitionCounter)
    }

    constructor (nodes: set<Node>)
      ensures this.nodes == nodes && Valid() && partitions == map[] && crashedNodes == {}
    {
      var m := FullMatrix(nodes);
      this.nodes, partitions, crashedNodes, partitionCounter := nodes, map[], {}, 0;
      connectivity := m;
    }

    method Validate(groups: seq<seq<Node>>) returns (valid: bool)
      ensures valid <==> ValidGroups(nodes, groups)
    {
      var all: set<Node> := {};
      for i := 0 to |groups|
        invariant ValidGroups(nodes, groups[..i])
        invariant forall x :: x in all <==> exists j :: 0 <= j < i && x in groups[j]
      {
        ghost var earlier := all;
        for k := 0 to |groups[i]|
          invariant forall l | 0 <= l < k :: groups[i][l] in nodes && groups[i][l] !in earlier
          invariant forall l, n | 0 <= l < n < k :: groups[i][l] != groups[i][n]
          invariant forall x :: x in all <==> x in earlier || x in groups[i][..k]
        {
          var node := groups[i][k];
          if node !in nodes {
            assert node in groups[i];
            return false;
          }
          if node in all {
            RepeatIsInvalid(groups, i, k, earlier);
            return false;
          }
          all := all + {node};
          assert groups[i][..k + 1] == groups[i][..k] + [node];
        }
        assert groups[i][..|groups[i]|] == groups[i];
        assert groups[..i + 1] == groups[..i] + [groups[i]];
      }
      assert groups[..|groups|] == groups;
      return true;
    }

    lemma RepeatIsInvalid(groups: seq<seq<Node>>, i: nat, k: nat, earlier: set<Node>)
      requires i < |groups| && k < |groups[i]|
      requires forall x :: x in earlier <==> exists j :: 0 <= j < i && x in groups[j]
      requires groups[i][k] in earlier || groups[i][k] in groups[i][..k]
      ensures !ValidGroups(nodes, groups)
    {
      var x := groups[i][k];
      if x in earlier {
        var j :| 0 <= j < i && x in groups[j];
        assert x in groups[i];
      } else {
        var l :| 0 <= l < k && groups[i][l] == x;
        assert !NoRepeats(groups[i]);
      }
    }

    method CreatePartition(groups: seq<seq<Node>>, now: real, duration: Option<real>, autoHeal: bool)
        returns (r: Result<nat, Error>)
      requires Valid()
      modifies this`partitions, this`partitionCounter, this`connectivity
      ensures Valid()
      ensures r.Failure? <==> !ValidGroups(nodes, groups)
      ensures r.Failure? ==> partitions == old(partitions) && connectivity == old(connectivity)
      ensures r.Success? ==> IsCut(old(connectivity), groups, connectivity)
      ensures r.Success? ==> r.value !in old(partitions)
      ensures r.Success? ==> partitions == old(partitions)[r.value := Partition(groups, now, duration, autoHeal, true)]
      ensures r.Success? ==> forall a, b ::
                Separated(partitions, a, b) <==> old(Separated(partitions, a, b)) || GroupsSeparate(groups, a, b)
    {
      var valid := Validate(groups);
      if !valid {
        return Failure(ValueError);
      }
      partitionCounter := partitionCounter + 1;
      ghost var before, m := partitions, connectivity;
      partitions := partitions[partitionCounter := Partition(groups, now, duration, autoHeal, true)];
      connectivity := ApplyPartition(connectivity, nodes, groups);
      NewPartitionIsRight(nodes, before, partitions, partitionCounter, crashedNodes, m, connectivity);
      return Success(partitionCounter);
    }

    method HealPartition(id: Option<nat>) returns (r: Result<(), Error>)
      requires Valid()
      modifies this`partitions, this`connectivity
      ensures Valid()
      ensures r.Failure? <==> id.Some? && id.value !in old(partitions)
      ensures r.Failure? ==> partitions == old(partitions) && connectivity == old(connectivity)
      ensures r.Success? ==> forall a, b | (a, b) in connectivity ::
                connectivity[(a, b)] <==> a !in crashedNodes && b !in crashedNodes && !Separated(partitions, a, b)
      ensures r.Success? && id.Some? ==>
          partitions == old(partitions)[id.value := old(partitions)[id.value].(active := false)]
      ensures r.Success? && id.None? ==> partitions == Healed(old(partitions))
      ensures r.Success? && id.None? ==> forall a, b :: !Separated(partitions, a, b)
    {
      match id {
        case Some(p) =>
          if p !in partitions {
            return Failure(ValueError);
          }
          partitions := partitions[p := partitions[p].(active := false)];
        case None =>
          partitions := Healed(partitions);
      }
      var full := FullMatrix(nodes);
      var cut := ApplyActive(full, nodes, partitions);
      connectivity := CutCrashed(cut, nodes, partitions, crashedNodes);
      return Success(());
    }

    method CrashNode(x: Node) returns (r: Result<(), Error>)
      requires Valid()
      modifies this`crashedNodes, this`connectivity
      ensures Valid()
      ensures r.Failure? <==> x !in nodes
      ensures crashedNodes == if x in nodes then old(crashedNodes) + {x} else old(crashedNodes)
      ensures if x in nodes then RowSet(old(connectivity), x, false, connectivity)
          else connectivity == old(connectivity)
    {
      if x !in nodes {
        return Failure(ValueError);
      }
      crashedNodes := crashedNodes + {x};
      connectivity := SetRow(connectivity, nodes, x, false);
      return Success(());
    }

    method RecoverNode(x: Node)
      requires Valid()
      modifies this`crashedNodes, this`connectivity
      ensures Valid() && crashedNodes == old(crashedNodes) - {x} && connectivity.Keys == old(connectivity).Keys
      ensures x !in old(crashedNodes) ==> connectivity == old(connectivity)
      ensures x in old(crashedNodes) ==> forall a, b | (a, b) in connectivity ::
                connectivity[(a, b)] <==>
                    (a == x || b == x || old(connectivity)[(a, b)]) && !Separated(partitions, a, b)
    {
      if x !in crashedNodes {
        return;
      }
      crashedNodes := crashedNodes - {x};
      var m := connectivity;
      var on := SetRow(m, nodes, x, true);
      connectivity := ApplyActive(on, nodes, partitions);
      RecoveredIsRight(nodes, partitions, crashedNodes, x, m, on, connectivity);
    }

    /** One sweep of the auto-heal loop. */
    method AutoHeal(now: real)
      requires Valid()
      modifies this`partitions, this`connectivity
      ensures Valid() && partitions.Keys == old(partitions).Keys
      ensures IsSwept(old(partitions), now, partitions)
      ensures forall p | p in partitions ::
                var q := old(partitions)[p];
                partitions[p] == q.(active := q.active && !(q.HealsItself() && q.createdAt + q.duration.value <= now))
    {
      hide Partition.ShouldHeal, Separated, ValidGroups, IsRight;
      ghost var before := partitions;
      var left := partitions.Keys;
      while left != {}
        invariant Valid() && left <= partitions.Keys && partitions.Keys == before.Keys
        invariant forall p | p in partitions ::
                    partitions[p] == if p !in left && before[p].ShouldHeal(now) then before[p].(active := false)
                        else before[p]
        decreases |left|
      {
        var p :| p in left;
        left := left - {p};
        if partitions[p].ShouldHeal(now) {
          var r := HealPartition(Some(p));
        }
      }
      SweepIsByTime(before, now, partitions);
    }

    /** Two nodes can communicate exactly when they are different known nodes that have not crashed
        and that no partition in force separates. */
    method CanCommunicate(a: Node, b: Node) returns (r: bool)
      requires Valid()
      ensures r <==>
                a != b && a in nodes && b in nodes && a !in crashedNodes && b !in crashedNodes
                    && !Separated(partitions, a, b)
    {
      if a in crashedNodes || b in crashedNodes {
        return false;
      }
      return (a, b) in connectivity && connectivity[(a, b)];
    }

    method GetReachableNodes(a: Node) returns (reachable: set<Node>)
      requires Valid()
      ensures forall b :: b in reachable <==>
                a != b && a in nodes && b in nodes && a !in crashedNodes && b !in crashedNodes
                    && !Separated(partitions, a, b)
    {
      reachable := {};
      var left := nodes;
      while left != {}
        invariant left <= nodes
        invariant forall b :: b in reachable <==>
                    b !in left && a != b && a in nodes && b in nodes && a !in crashedNodes && b !in crashedNodes
                    && !Separated(partitions, a, b)
        decreases |left|
      {
        var b :| b in left;
        left := left - {b};
        var can := CanCommunicate(a, b);
        if a != b && can {
          reachable := reachable + {b};
        }
      }
    }
  }

  /** Why `can_communicate` asks about crashes first: when one of two crashed nodes recovers, its entry
      toward the other is on again. */
  method RecoveryLeavesStaleEntries(nodes: set<Node>, x: Node, y: Node) returns (entry: bool, can: bool)
    requires x in nodes && y in nodes && x != y
    ensures entry && !can
  {
    var coordinator := new PartitionCoordinator(nodes);
    var first := coordinator.CrashNode(x);
    var second := coordinator.CrashNode(y);
    coordinator.RecoverNode(x);
    assert !Separated(coordinator.partitions, x, y);
    entry := coordinator.connectivity[(x, y)];
    can := coordinator.CanCommunicate(x, y);
  }

  // ----- Sweeps -----

  /** What one sweep of the auto-heal loop makes of the partitions. */
  ghost predicate IsSwept(before: map<nat, Partition>, now: real, after: map<nat, Partition>) {
    && after.Keys == before.Keys
    && forall p | p in before ::
         after[p] == if before[p].ShouldHeal(now) then before[p].(active := false) else before[p]
  }

  /** A sweep goes by the clock: it ends the partitions that heal themselves and whose duration has passed
      since they were created, and leaves every other one as it is. */
  lemma SweepIsByTime(before: map<nat, Partition>, now: real, after: map<nat, Partition>)
    requires IsSwept(before, now, after)
    ensures forall p | p in after ::
              var q := before[p];
              after[p] == q.(active := q.active && !(q.HealsItself() && q.createdAt + q.duration.value <= now))
  {
    forall p | p in after
      ensures var q := before[p];
              after[p] == q.(active := q.active && !(q.HealsItself() && q.createdAt + q.duration.value <= now))
    {
      assert p in before;
    }
  }

  /** The partitions before and after each of a sequence of sweeps. */
  ghost predicate AreSweeps(run: seq<map<nat, Partition>>, times: seq<real>) {
    |run| == |times| + 1 && forall i | 0 <= i < |times| :: IsSwept(run[i], times[i], run[i + 1])
  }

  ghost predicate HasEnded(q: Partition, times: seq<real>) {
    q.HealsItself() && exists t | t in times :: q.createdAt + q.duration.value <= t
  }

  lemma EndsByOneMore(q: Partition, times: seq<real>, now: real)
    ensures HasEnded(q, times + [now]) <==>
            HasEnded(q, times) || (q.HealsItself() && q.createdAt + q.duration.value <= now)
  {
    var all := times + [now];
    assert now in all && forall t | t in times :: t in all;
    if HasEnded(q, all) {
      var t :| t in all && q.createdAt + q.duration.value <= t;
      assert t in times || t == now;
    }
  }

  /** Sweeps at any times, in any order, leave a partition as it was created, except that one is over that
      was to end by the time of some sweep: what one sweep heals no other brings back, and only the latest
      time counts. */
  lemma {:induction false} SweepsGoByTime(run: seq<map<nat, Partition>>, times: seq<real>, i: nat, p: nat)
    requires AreSweeps(run, times) && i <= |times| && p in run[0]
    ensures p in run[i]
    ensures run[i][p] == run[0][p].(active := run[0][p].active && !HasEnded(run[0][p], times[..i]))
  {
    hide HasEnded, IsSwept;
    if i > 0 {
      SweepsGoByTime(run, times, i - 1, p);
      assert IsSwept(run[i - 1], times[i - 1], run[i - 1 + 1]);
      SameKeys(run[i - 1], times[i - 1], run[i]);
      SweepIsByTime(run[i - 1], times[i - 1], run[i]);
      assert times[..i] == times[..i - 1] + [times[i - 1]];
      EndsByOneMore(run[0][p], times[..i - 1], times[i - 1]);
    } else {
      NothingEndsYet(run[0][p], times);
    }
  }

  lemma NothingEndsYet(q: Partition, times: seq<real>)
    ensures !HasEnded(q, times[..0])
  {
  }

  lemma SameKeys(before: map<nat, Partition>, now: real, after: map<nat, Partition>)
    requires IsSwept(before, now, after)
    ensures after.Keys == before.Keys
  {
  }

  /** After a sweep at or after every deadline, no partition that heals itself is in force. */
  lemma NothingOutlivesItsDeadline(run: seq<map<nat, Partition>>, times: seq<real>, k: nat)
    requires AreSweeps(run, times) && k < |times|
    requires forall p | p in run[0] && run[0][p].HealsItself() ::
        run[0][p].createdAt + run[0][p].duration.value <= times[k]
    ensures forall p | p in run[0] :: p in run[|times|] && !(run[|times|][p].active && run[|times|][p].HealsItself())
  {
    forall p | p in run[0] ensures p in run[|times|] && !(run[|times|][p].active && run[|times|][p].HealsItself()) {
      SweepsGoByTime(run, times, |times|, p);
      assert times[..|times|] == times && times[k] in times;
    }
  }

  function Healed(partitions: map<nat, Partition>): map<nat, Partition> {
    map p | p in partitions :: partitions[p].(active := false)
  }

  lemma NewPartitionIsRight(nodes: set<Node>, before: map<nat, Partition>, partitions: map<nat, Partition>, p: nat,
                            crashed: set<Node>, m: Matrix, m': Matrix)
    requires p !in before && p in partitions && partitions == before[p := partitions[p]] && partitions[p].active
    requires IsRight(nodes, before, crashed, m) && IsCut(m, partitions[p].groups, m') && IsMatrix(nodes, m')
    ensures IsRight(nodes, partitions, crashed, m')
    ensures forall a, b ::
              Separated(partitions, a, b) <==> Separated(before, a, b) || GroupsSeparate(partitions[p].groups, a, b)
  {
    hide GroupsSeparate;
    forall a, b ensures Separated(partitions, a, b) <==>
        Separated(before, a, b) || GroupsSeparate(partitions[p].groups, a, b) {
      if Separated(before, a, b) {
        var q :| q in before && before[q].active && GroupsSeparate(before[q].groups, a, b);
        assert q in partitions && partitions[q] == before[q];
      }
    }
    forall a, b | (a, b) in m' && a !in crashed && b !in crashed ensures m'[(a, b)] <==> !Separated(partitions, a, b) {
      assert (a, b) in m.Keys;
    }
  }

  lemma RecoveredIsRight(nodes: set<Node>, partitions: map<nat, Partition>, crashed: set<Node>, x: Node,
                         m: Matrix, on: Matrix, m': Matrix)
    requires x in nodes && IsRight(nodes, partitions, crashed + {x}, m) && RowSet(m, x, true, on) && IsMatrix(nodes, on)
    requires IsMatrix(nodes, m') && m'.Keys == on.Keys
    requires forall a, b | (a, b) in on :: m'[(a, b)] <==> on[(a, b)] && !Separated(partitions, a, b)
    ensures IsRight(nodes, partitions, crashed, m')
  {
    hide Separated;
    forall a, b | (a, b) in m' && a !in crashed && b !in crashed ensures m'[(a, b)] <==> !Separated(partitions, a, b) {
      assert (a, b) in on.Keys && (a, b) in m.Keys;
    }
  }

  /** The last loop of `heal_partition`: crashed nodes are cut off again. */
  method CutCrashed(m: Matrix, nodes: set<Node>, partitions: map<nat, Partition>, crashed: set<Node>)
      returns (m': Matrix)
    requires crashed <= nodes && IsRight(nodes, partitions, {}, m)
    ensures IsRight(nodes, partitions, crashed, m')
    ensures forall a, b | (a, b) in m' && (a in crashed || b in crashed) :: !m'[(a, b)]
  {
    hide Separated;
    m' := m;
    var left := crashed;
    while left != {}
      invariant left <= crashed && IsMatrix(nodes, m')
      invariant forall a, b | (a, b) in m' ::
                  if a in crashed - left || b in crashed - left then !m'[(a, b)] else m'[(a, b)] <==>
                      !Separated(partitions, a, b)
      decreases |left|
    {
      var x :| x in left;
      left := left - {x};
      var before := m';
      m' := SetRow(m', nodes, x, false);
      assert forall a, b | (a, b) in m' :: (a, b) in before.Keys;
    }
  }
}
