/** The wait-for graph and its two depth-first cycle searches (deadlock_detector.py). */
module DeadlockDetectors {
  import opened Wrappers

  datatype Process = Process(name: string)

  datatype Resource = Resource(name: string)

  // ----- Dictionaries of sets, in which no set stays empty -----

  predicate In<K, V>(m: map<K, set<V>>, k: K, v: V) {
    k in m && v in m[k]
  }

  ghost predicate NoneEmpty<K, V>(m: map<K, set<V>>) {
    forall k | k in m :: m[k] != {}
  }

  function Include<K(!new), V(!new)>(m: map<K, set<V>>, k: K, v: V): (m': map<K, set<V>>)
    ensures forall q, s :: In(m', q, s) <==> In(m, q, s) || (q == k && s == v)
    ensures NoneEmpty(m) ==> NoneEmpty(m')
  {
    m[k := (if k in m then m[k] else {}) + {v}]
  }

  function Discard<K(!new), V(!new)>(m: map<K, set<V>>, k: K, v: V): (m': map<K, set<V>>)
    ensures forall q, s :: In(m', q, s) <==> In(m, q, s) && !(q == k && s == v)
    ensures NoneEmpty(m) ==> NoneEmpty(m')
  {
    if !In(m, k, v) then m
    else if m[k] - {v} == {} then
      assert forall s | s in m[k] :: s == v || s in m[k] - {v};
      m - {k}
    else m[k := m[k] - {v}]
  }

  // ----- Graphs, paths and cycles -----

  type Graph = map<Process, set<Process>>

  predicate Edge(g: Graph, p: Process, q: Process) {
    In(g, p, q)
  }

  ghost predicate IsPath(g: Graph, path: seq<Process>) {
    forall i | 0 < i < |path| :: Edge(g, path[i - 1], path[i])
  }

  ghost predicate Distinct(path: seq<Process>) {
    forall i, j | 0 <= i < j < |path| :: path[i] != path[j]
  }

  function After(i: nat, n: nat): nat
    requires i < n
  {
    if i + 1 < n then i + 1 else 0
  }

  /** Every member has an edge to the next, the last one back to the first. */
  ghost predicate IsCycle(g: Graph, c: seq<Process>) {
    c != [] && forall i | 0 <= i < |c| :: Edge(g, c[i], c[After(i, |c|)])
  }

  ghost predicate Cyclic(g: Graph) {
    exists c :: IsCycle(g, c)
  }

  ghost function Universe(g: Graph): set<Process> {
    g.Keys + set p, q | p in g && q in g[p] :: q
  }

  function Elements(path: seq<Process>): set<Process> {
    set p | p in path
  }

  /** A path that comes back to one of its members closes a cycle. */
  lemma PathCloses(g: Graph, path: seq<Process>, k: nat)
    requires path != [] && k < |path| && IsPath(g, path) && Edge(g, path[|path| - 1], path[k])
    ensures IsCycle(g, path[k..])
  {
    var c := path[k..];
    forall i | 0 <= i < |c| ensures Edge(g, c[i], c[After(i, |c|)]) {
      assert i + 1 < |c| ==> Edge(g, path[k + i + 1 - 1], path[k + i + 1]);
    }
  }

  // ----- Finishing orders -----

  /** Each node comes after all its successors. */
  ghost predicate IsFinishOrder(g: Graph, order: seq<Process>) {
    forall i, q | 0 <= i < |order| && Edge(g, order[i], q) :: q in order[..i]
  }

  function IndexOf(s: seq<Process>, x: Process): (k: nat)
    requires x in s
    ensures k < |s| && s[k] == x
  {
    if s[0] == x then 0 else 1 + IndexOf(s[1..], x)
  }

  /** The part of a path from a node on. */
  function From(path: seq<Process>, x: Process): seq<Process>
    requires x in path
  {
    path[IndexOf(path, x)..]
  }

  lemma {:induction false} CycleDescends(g: Graph, order: seq<Process>, c: seq<Process>, start: nat, i: nat)
      returns (k: nat)
    requires IsFinishOrder(g, order) && IsCycle(g, c) && start < |order| && order[start] == c[0] && i < |c|
    ensures k + i <= start && k < |order| && order[k] == c[i]
    decreases i
  {
    if i == 0 {
      k := start;
    } else {
      var j := CycleDescends(g, order, c, start, i - 1);
      assert Edge(g, c[i - 1], c[After(i - 1, |c|)]);
      assert c[i] in order[..j];
      k :| 0 <= k < j && order[k] == c[i];
    }
  }

  lemma {:induction false} FinishedHasNoCycle(g: Graph, order: seq<Process>, c: seq<Process>, start: nat)
    requires IsFinishOrder(g, order) && IsCycle(g, c) && start < |order| && order[start] == c[0]
    ensures false
    decreases start
  {
    var k := CycleDescends(g, order, c, start, |c| - 1);
    assert Edge(g, c[|c| - 1], c[After(|c| - 1, |c|)]);
    assert c[0] in order[..k];
    var j :| 0 <= j < k && order[j] == c[0];
    FinishedHasNoCycle(g, order, c, j);
  }

  /** If every node with a successor has finished, there is no cycle. */
  lemma AllFinishedIsAcyclic(g: Graph, order: seq<Process>)
    requires IsFinishOrder(g, order) && g.Keys <= Elements(order)
    ensures !Cyclic(g)
  {
    forall c ensures !IsCycle(g, c) {
      if IsCycle(g, c) {
        assert Edge(g, c[0], c[After(0, |c|)]);
        var start :| 0 <= start < |order| && order[start] == c[0];
        FinishedHasNoCycle(g, order, c, start);
      }
    }
  }

  // ----- The searches -----

  /** Where a search stands: the nodes on the current path are on the stack, the others visited have
      finished. */
  ghost predicate Searching(g: Graph, visited: set<Process>, stack: set<Process>, path: seq<Process>,
      order: seq<Process>) {
    && visited <= Universe(g)
    && visited == stack + Elements(order)
    && stack == Elements(path)
    && stack !! Elements(order)
    && Distinct(path) && IsPath(g, path)
    && IsFinishOrder(g, order)
  }

  lemma EdgeInUniverse(g: Graph, p: Process, q: Process)
    requires Edge(g, p, q)
    ensures q in Universe(g)
  {
  }

  lemma PathExtends(g: Graph, path: seq<Process>, p: Process, q: Process)
    requires IsPath(g, path + [p]) && Edge(g, p, q)
    ensures IsPath(g, path + [p] + [q])
  {
    var longer := path + [p] + [q];
    forall i | 0 < i < |longer| ensures Edge(g, longer[i - 1], longer[i]) {
      assert i < |path| + 1 ==> longer[i - 1] == (path + [p])[i - 1] && longer[i] == (path + [p])[i];
    }
  }

  lemma Fewer(all: set<Process>, seen: set<Process>, node: Process, seen': set<Process>)
    requires node in all && node !in seen && seen + {node} <= seen'
    ensures |all - seen'| < |all - seen|
  {
    assert all - seen == (all - seen') + ((all - seen) - (all - seen'));
    assert node in (all - seen) - (all - seen');
  }

  lemma Enter(g: Graph, node: Process, visited: set<Process>, stack: set<Process>, path: seq<Process>,
      order: seq<Process>)
    requires Searching(g, visited, stack, path, order) && node in Universe(g) && node !in visited
    requires IsPath(g, path + [node])
    ensures Searching(g, visited + {node}, stack + {node}, path + [node], order)
  {
    hide Universe, IsPath, IsFinishOrder;
    assert node !in path;
  }

  lemma Leave(g: Graph, node: Process, visited: set<Process>, stack: set<Process>, path: seq<Process>,
      order: seq<Process>)
    requires Searching(g, visited, stack + {node}, path + [node], order)
    requires node !in stack && stack == Elements(path)
    requires forall q | Edge(g, node, q) :: q in visited && q !in stack + {node}
    ensures Searching(g, visited, stack, path, order + [node])
  {
    hide Universe, Edge;
    var order' := order + [node];
    forall i, q | 0 <= i < |order'| && Edge(g, order'[i], q) ensures q in order'[..i] {
      assert order'[..i] == order[..i];
      assert i == |order| ==> order[..i] == order && q in Elements(order);
    }
    assert Elements(order') == Elements(order) + {node};
    PathShrinks(g, path, node);
  }

  lemma PathShrinks(g: Graph, path: seq<Process>, p: Process)
    requires IsPath(g, path + [p]) && Distinct(path + [p])
    ensures IsPath(g, path) && Distinct(path)
  {
    forall i | 0 < i < |path| ensures Edge(g, path[i - 1], path[i]) {
      assert path[i - 1] == (path + [p])[i - 1] && path[i] == (path + [p])[i];
    }
    forall i, j | 0 <= i < j < |path| ensures path[i] != path[j] {
      assert path[i] == (path + [p])[i] && path[j] == (path + [p])[j];
    }
  }

  function Successors(g: Graph, node: Process): set<Process> {
    if node in g then g[node] else {}
  }

  /** The depth-first search of `has_cycle`. */
  method HasCycleFrom(g: Graph, node: Process, visited: set<Process>, stack: set<Process>,
                      ghost path: seq<Process>, ghost order: seq<Process>)
      returns (found: bool, visited': set<Process>, stack': set<Process>, ghost order': seq<Process>)
    requires Searching(g, visited, stack, path, order)
    requires node in Universe(g) && node !in visited && IsPath(g, path + [node])
    ensures found ==> Cyclic(g)
    ensures !found ==> stack' == stack && visited + {node} <= visited' && Searching(g, visited', stack', path, order')
    decreases |Universe(g) - visited|
  {
    Enter(g, node, visited, stack, path, order);
    assert node !in stack && stack == Elements(path);
    hide Universe, Searching, IsPath, Cyclic, IsCycle, Distinct, Elements, Edge;
    visited', stack', order' := visited + {node}, stack + {node}, order;
    var todo := Successors(g, node);
    while todo != {}
      invariant stack' == stack + {node} && visited + {node} <= visited'
      invariant Searching(g, visited', stack', path + [node], order')
      invariant todo <= Successors(g, node)
      invariant forall q | q in Successors(g, node) - todo :: q in visited' && q !in stack'
      decreases |todo|
    {
      var neighbor :| neighbor in todo;
      todo := todo - {neighbor};
      if neighbor !in visited' {
        EdgeInUniverse(g, node, neighbor);
        PathExtends(g, path, node, neighbor);
        Fewer(Universe(g), visited, node, visited');
        found, visited', stack', order' := HasCycleFrom(g, neighbor, visited', stack', path + [node], order');
        if found {
          return;
        }
      } else if neighbor in stack' {
        found := true;
        BackEdge(g, visited', stack', path + [node], order', neighbor);
        return;
      }
    }
    Leave(g, node, visited', stack, path, order');
    stack' := stack' - {node};
    order' := order' + [node];
    found := false;
  }

  /** An edge to a node on the stack closes a cycle, the part of the path from that node on. */
  lemma BackEdge(g: Graph, visited: set<Process>, stack: set<Process>, path: seq<Process>, order: seq<Process>,
      q: Process)
    requires Searching(g, visited, stack, path, order)
    requires path != [] && Edge(g, path[|path| - 1], q) && q in stack
    ensures Cyclic(g) && q in path && IsCycle(g, From(path, q)) && Distinct(From(path, q))
  {
    assert q in path;
    PathCloses(g, path, IndexOf(path, q));
  }

  lemma PopUndoesPush(stack: seq<Process>, node: Process)
    ensures (stack + [node])[..|stack + [node]| - 1] == stack
  {
  }

  /** The depth-first search of `get_deadlock_cycle`: here the path is the stack itself. */
  method CycleFrom(g: Graph, node: Process, visited: set<Process>, stack: seq<Process>, onStack: set<Process>,
                   ghost order: seq<Process>)
      returns (found: bool, cycle: seq<Process>, visited': set<Process>, stack': seq<Process>, onStack': set<Process>,
               ghost order': seq<Process>)
    requires Searching(g, visited, onStack, stack, order)
    requires node in Universe(g) && node !in visited && IsPath(g, stack + [node])
    ensures found ==> IsCycle(g, cycle) && Distinct(cycle)
    ensures !found ==> cycle == [] && stack' == stack && onStack' == onStack && visited + {node} <= visited'
                       && Searching(g, visited', onStack', stack', order')
    decreases |Universe(g) - visited|
  {
    Enter(g, node, visited, onStack, stack, order);
    assert node !in onStack && onStack == Elements(stack);
    hide Universe, Searching, IsPath, Cyclic, IsCycle, Distinct, Elements, Edge, From;
    cycle := [];
    visited', stack', onStack', order' := visited + {node}, stack + [node], onStack + {node}, order;
    var todo := Successors(g, node);
    while todo != {}
      invariant stack' == stack + [node] && onStack' == onStack + {node} && visited + {node} <= visited'
      invariant Searching(g, visited', onStack', stack', order')
      invariant todo <= Successors(g, node) && cycle == []
      invariant forall q | q in Successors(g, node) - todo :: q in visited' && q !in onStack'
      decreases |todo|
    {
      var neighbor :| neighbor in todo;
      todo := todo - {neighbor};
      if neighbor in onStack' {
        BackEdge(g, visited', onStack', stack', order', neighbor);
        found := true;
        cycle := From(stack', neighbor);
        return;
      }
      if neighbor !in visited' {
        EdgeInUniverse(g, node, neighbor);
        PathExtends(g, stack, node, neighbor);
        Fewer(Universe(g), visited, node, visited');
        found, cycle, visited', stack', onStack', order' := CycleFrom(g, neighbor, visited', stack', onStack', order');
        if found {
          return;
        }
      }
    }
    Leave(g, node, visited', onStack, stack, order');
    PopUndoesPush(stack, node);
    onStack' := onStack' - {node};
    stack' := stack'[..|stack'| - 1];
    order' := order' + [node];
    found := false;
  }

  /** Between two searches from the roots: nothing on the stack, everything visited has finished. */
  lemma StartSearch(g: Graph)
    ensures Searching(g, {}, {}, [], [])
  {
  }

  lemma EndSearch(g: Graph, visited: set<Process>, order: seq<Process>)
    requires Searching(g, visited, {}, [], order) && g.Keys <= visited
    ensures !Cyclic(g)
  {
    AllFinishedIsAcyclic(g, order);
  }

  // ----- The detector -----

  class DeadlockDetector {
    var waitingFor: map<Process, set<Resource>>
    var heldBy: map<Resource, Process>
    var holding: map<Process, set<Resource>>

    predicate IsWaiting(p: Process, r: Resource)
      reads this
    {
      In(waitingFor, p, r)
    }

    predicate IsHolding(p: Process, r: Resource)
      reads this
    {
      In(holding, p, r)
    }

    /** p waits for a resource that q, another process, holds. */
    ghost predicate WaitsOn(p: Process, q: Process)
      reads this
    {
      p != q && p in waitingFor && HoldsOneOf(q, waitingFor[p])
    }

    ghost predicate HoldsOneOf(q: Process, resources: set<Resource>)
      reads this
    {
      exists r | r in resources :: r in heldBy && heldBy[r] == q
    }

    /** Distinct processes, each waiting for a resource held by the next, the last by the first. */
    ghost predicate IsDeadlock(c: seq<Process>)
      reads this
    {
      c != [] && Distinct(c) && forall i | 0 <= i < |c| :: WaitsOn(c[i], c[After(i, |c|)])
    }

    ghost predicate Deadlocked()
      reads this
    {
      exists c :: IsDeadlock(c)
    }

    ghost predicate IsWaitForGraph(g: Graph)
      reads this
    {
      forall p, q :: Edge(g, p, q) <==> WaitsOn(p, q)
    }

    /** No empty sets are kept, and who is recorded as the holder of a resource is holding it. */
    ghost predicate Valid()
      reads this
    {
      && NoneEmpty(waitingFor) && NoneEmpty(holding)
      && (forall r | r in heldBy :: IsHolding(heldBy[r], r))
    }

    constructor ()
      ensures Valid() && waitingFor == map[] && heldBy == map[] && holding == map[]
    {
      waitingFor, heldBy, holding := map[], map[], map[];
    }

    method RecordLockOrder(p: Process, r: Resource)
      requires Valid()
      modifies this
      ensures Valid() && heldBy == old(heldBy)[r := p]
      ensures forall q, s :: IsHolding(q, s) <==> old(IsHolding(q, s)) || (q == p && s == r)
      ensures forall q, s :: IsWaiting(q, s) <==> old(IsWaiting(q, s)) && !(q == p && s == r)
    {
      heldBy := heldBy[r := p];
      holding := Include(holding, p, r);
      waitingFor := Discard(waitingFor, p, r);
    }

    method RecordWait(p: Process, r: Resource)
      requires Valid()
      modifies this`waitingFor
      ensures Valid()
      ensures forall q, s :: IsWaiting(q, s) <==> old(IsWaiting(q, s)) || (q == p && s == r)
    {
      waitingFor := Include(waitingFor, p, r);
    }

    method ReleaseLock(p: Process, r: Resource)
      requires Valid()
      modifies this`heldBy, this`holding
      ensures Valid()
      ensures heldBy == if r in old(heldBy) && old(heldBy)[r] == p then old(heldBy) - {r} else old(heldBy)
      ensures forall q, s :: IsHolding(q, s) <==> old(IsHolding(q, s)) && !(q == p && s == r)
    {
      if r in heldBy && heldBy[r] == p {
        heldBy := heldBy - {r};
      }
      holding := Discard(holding, p, r);
    }

    lemma OneMoreResource(all: set<Resource>, left: set<Resource>, r: Resource)
      requires r in left && left <= all
      ensures forall q :: HoldsOneOf(q, all - (left - {r})) <==>
          HoldsOneOf(q, all - left) || (r in heldBy && heldBy[r] == q)
    {
      assert all - (left - {r}) == (all - left) + {r};
    }

    method BuildGraph() returns (adj: Graph)
      ensures IsWaitForGraph(adj)
    {
      adj := map[];
      var processes := waitingFor.Keys;
      while processes != {}
        invariant processes <= waitingFor.Keys
        invariant forall p, q :: In(adj, p, q) <==> p !in processes && WaitsOn(p, q)
        decreases |processes|
      {
        var waiting :| waiting in processes;
        processes := processes - {waiting};
        var resources := waitingFor[waiting];
        while resources != {}
          invariant resources <= waitingFor[waiting]
          invariant forall p, q | p != waiting :: In(adj, p, q) <==> p !in processes && WaitsOn(p, q)
          invariant forall q :: In(adj, waiting, q) <==> q != waiting && HoldsOneOf(q, waitingFor[waiting] - resources)
          decreases |resources|
        {
          var res :| res in resources;
          OneMoreResource(waitingFor[waiting], resources, res);
          resources := resources - {res};
          if res in heldBy {
            var holder := heldBy[res];
            if waiting != holder {
              adj := Include(adj, waiting, holder);
            }
          }
        }
        assert waitingFor[waiting] - {} == waitingFor[waiting];
      }
    }

    /** A cycle of the wait-for graph, its members all different, is a deadlock. */
    lemma DeadlocksAreCycles(g: Graph, c: seq<Process>)
      requires IsWaitForGraph(g)
      ensures IsDeadlock(c) <==> IsCycle(g, c) && Distinct(c)
    {
    }

    method HasCycle() returns (found: bool)
      ensures found <==> Deadlocked()
    {
      var adj := BuildGraph();
      hide Searching, Universe;
      var visited: set<Process> := {};
      ghost var order := [];
      StartSearch(adj);
      var todo := adj.Keys;
      while todo != {}
        invariant todo <= adj.Keys && adj.Keys - todo <= visited && Searching(adj, visited, {}, [], order)
        decreases |todo|
      {
        var node :| node in todo;
        todo := todo - {node};
        if node !in visited {
          var stack;
          KeyInUniverse(adj, node);
          found, visited, stack, order := HasCycleFrom(adj, node, visited, {}, [], order);
          if found {
            CyclicIsDeadlocked(adj);
            return;
          }
        }
      }
      EndSearch(adj, visited, order);
      AcyclicIsFree(adj);
      found := false;
    }

    /** A process that waits for what it holds itself is no deadlock: it takes two. */
    lemma NobodyBlocksItself(c: seq<Process>)
      requires IsDeadlock(c)
      ensures |c| >= 2
    {
      assert WaitsOn(c[0], c[After(0, |c|)]);
    }

    method GetDeadlockCycle() returns (cycle: seq<Process>)
      ensures cycle != [] <==> Deadlocked()
      ensures cycle != [] ==> IsDeadlock(cycle) && |cycle| >= 2
    {
      var adj := BuildGraph();
      hide Searching, Universe;
      var visited: set<Process> := {};
      ghost var order := [];
      StartSearch(adj);
      var todo := adj.Keys;
      while todo != {}
        invariant todo <= adj.Keys && adj.Keys - todo <= visited && Searching(adj, visited, {}, [], order)
        decreases |todo|
      {
        var node :| node in todo;
        todo := todo - {node};
        if node !in visited {
          var found, stack, onStack;
          KeyInUniverse(adj, node);
          found, cycle, visited, stack, onStack, order := CycleFrom(adj, node, visited, [], {}, order);
          if found {
            DeadlocksAreCycles(adj, cycle);
            NobodyBlocksItself(cycle);
            return;
          }
        }
      }
      EndSearch(adj, visited, order);
      AcyclicIsFree(adj);
      cycle := [];
    }

    /** The victim is a member of a deadlock; there is none only when there is no deadlock. */
    method ChooseDeadlockVictim() returns (victim: Option<Process>)
      ensures victim.None? <==> !Deadlocked()
      ensures victim.Some? ==> exists c :: IsDeadlock(c) && c[0] == victim.value
    {
      var cycle := GetDeadlockCycle();
      if cycle != [] {
        return Some(cycle[0]);
      }
      return None;
    }

    lemma CyclicIsDeadlocked(g: Graph)
      requires IsWaitForGraph(g) && Cyclic(g)
      ensures Deadlocked()
    {
      var c :| IsCycle(g, c);
      var d := ShortenCycle(g, c);
      DeadlocksAreCycles(g, d);
    }

    lemma AcyclicIsFree(g: Graph)
      requires IsWaitForGraph(g) && !Cyclic(g)
      ensures !Deadlocked()
    {
      forall c ensures !IsDeadlock(c) {
        DeadlocksAreCycles(g, c);
      }
    }

    /** In a deadlock every process holds what the one before it waits for, so each both holds and waits:
        here the queries rely on the bookkeeping of `holding`. */
    lemma DeadlockedProcessesHoldAndWait(c: seq<Process>, i: nat) returns (held: Resource, wanted: Resource)
      requires Valid() && IsDeadlock(c) && i < |c|
      ensures IsHolding(c[i], held) && IsWaiting(c[if i == 0 then |c| - 1 else i - 1], held)
      ensures IsWaiting(c[i], wanted) && IsHolding(c[After(i, |c|)], wanted)
      ensures c[i] in holding && c[i] in waitingFor
    {
      var before := if i == 0 then |c| - 1 else i - 1;
      assert After(before, |c|) == i && WaitsOn(c[before], c[i]) && WaitsOn(c[i], c[After(i, |c|)]);
      held :| held in waitingFor[c[before]] && held in heldBy && heldBy[held] == c[i];
      wanted :| wanted in waitingFor[c[i]] && wanted in heldBy && heldBy[wanted] == c[After(i, |c|)];
    }

    /** Where every process waits only for resources ranked above all it holds, as under a global
        lock order, there is no deadlock. */
    lemma LockOrderPreventsDeadlock(rank: Resource -> int)
      requires forall p, r, s | IsWaiting(p, s) && r in heldBy && heldBy[r] == p :: rank(r) < rank(s)
      ensures !Deadlocked()
    {
      forall c ensures !IsDeadlock(c) {
        if IsDeadlock(c) {
          var first, last := RanksClimb(rank, c, |c|);
          assert false;
        }
      }
    }

    /** The resource the i-th process waits for, counting round the deadlock. */
    lemma {:induction false} RanksClimb(rank: Resource -> int, c: seq<Process>, n: nat)
        returns (first: Resource, last: Resource)
      requires forall p, r, s | IsWaiting(p, s) && r in heldBy && heldBy[r] == p :: rank(r) < rank(s)
      requires IsDeadlock(c) && 0 < n <= |c|
      ensures IsWaiting(c[0], first) && IsWaiting(c[n - 1], last) && last in heldBy
      ensures heldBy[last] == c[After(n - 1, |c|)]
      ensures rank(first) <= rank(last)
    {
      assert WaitsOn(c[n - 1], c[After(n - 1, |c|)]);
      last :| last in waitingFor[c[n - 1]] && last in heldBy && heldBy[last] == c[After(n - 1, |c|)];
      if n == 1 {
        first := last;
      } else {
        var previous;
        first, previous := RanksClimb(rank, c, n - 1);
        assert heldBy[previous] == c[n - 1] && IsWaiting(c[n - 1], last);
      }
    }
  }

  lemma KeyInUniverse(g: Graph, p: Process)
    requires p in g
    ensures p in Universe(g) && IsPath(g, [] + [p])
  {
  }

  /** Every cycle contains one without repetitions. */
  lemma {:induction false} ShortenCycle(g: Graph, c: seq<Process>) returns (d: seq<Process>)
    requires IsCycle(g, c)
    ensures IsCycle(g, d) && Distinct(d)
    decreases |c|
  {
    if Distinct(c) {
      d := c;
    } else {
      var i, j :| 0 <= i < j < |c| && c[i] == c[j];
      var part := c[i..j];
      forall k | 0 <= k < |part| ensures Edge(g, part[k], part[After(k, |part|)]) {
        assert Edge(g, c[i + k], c[After(i + k, |c|)]);
      }
      d := ShortenCycle(g, part);
    }
  }
}
