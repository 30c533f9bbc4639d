/** Leader election by a token that goes round a ring (ring_algorithm.py). A node is known by its
    id, of which only the order matters; `ids` lists all ids in ascending order, as every node
    computes it. */
module RingElections {
  import opened SortedSets
  import opened Wrappers

  type Ring = ids: seq<int> | ids != [] && forall i, j | 0 <= i < j < |ids| :: ids[i] < ids[j] witness [0]

  datatype Message =
    | Election(candidates: seq<int>, sender: int)
    | Elected(winner: int, sender: int)

  datatype NodeState = NodeState(running: bool, inElection: bool, currentLeader: Option<int>, isLeaderFlag: bool)

  const FRESH_NODE := NodeState(false, false, None, false)

  function MaxOf(candidates: seq<int>): (m: int)
    requires candidates != []
    ensures m in candidates && forall x | x in candidates :: x <= m
  {
    if |candidates| == 1 then candidates[0]
    else
      assert candidates == [candidates[0]] + candidates[1..];
      var rest := MaxOf(candidates[1..]);
      if candidates[0] > rest then candidates[0] else rest
  }

  // ----- Handlers as functions: the new state and what is sent to the next node -----

  function ElectionComplete(s: NodeState, id: int, winner: int): NodeState {
    s.(inElection := false, currentLeader := Some(winner), isLeaderFlag := winner == id)
  }

  function SendElection(ids: Ring, s: NodeState, id: int, candidates: seq<int>): (NodeState, Option<Message>) {
    if |ids| == 1 then (ElectionComplete(s, id, id), None) else (s, Some(Election(candidates, id)))
  }

  function StartElection(ids: Ring, s: NodeState, id: int): (NodeState, Option<Message>) {
    if s.inElection then (s, None) else SendElection(ids, s.(inElection := true), id, [id])
  }

  function HandleElection(ids: Ring, s: NodeState, id: int, candidates: seq<int>): (NodeState, Option<Message>) {
    if !s.running then (s, None)
    else if id in candidates then
      var winner := MaxOf(candidates);
      (ElectionComplete(s, id, winner), if |ids| == 1 then None else Some(Elected(winner, id)))
    else SendElection(ids, s.(inElection := true), id, candidates + [id])
  }

  function HandleElected(s: NodeState, id: int, m: Message): (NodeState, Option<Message>)
    requires m.Elected?
  {
    if m.sender == id then (s, None) else (ElectionComplete(s, id, m.winner), Some(m))
  }

  function Handle(ids: Ring, s: NodeState, id: int, m: Message): (NodeState, Option<Message>) {
    match m
    case Election(candidates, _) => HandleElection(ids, s, id, candidates)
    case Elected(_, _) => HandleElected(s, id, m)
  }

  function Start(s: NodeState): NodeState {
    s.(running := true)
  }

  function Stop(s: NodeState): NodeState {
    s.(running := false, isLeaderFlag := false)
  }

  function IndexOf(ids: seq<int>, id: int): (i: nat)
    requires id in ids
    ensures i < |ids| && ids[i] == id
  {
    if ids[0] == id then 0 else 1 + IndexOf(ids[1..], id)
  }

  lemma {:induction false} IndexOfIs(ids: Ring, i: nat)
    requires i < |ids|
    ensures IndexOf(ids, ids[i]) == i
  {
    var j := IndexOf(ids, ids[i]);
    assert ids[j] == ids[i];
  }

  // ----- The node in place -----

  class RingElection {
    const nodeId: int
    const allNodes: Ring
    const nextNode: int
    var running: bool
    var inElection: bool
    var currentLeader: Option<int>
    var isLeaderFlag: bool

    function View(): NodeState
      reads this
    {
      NodeState(running, inElection, currentLeader, isLeaderFlag)
    }

    /** The ring is the sorted set of all ids, and the next node the one after this, round the end. */
    ghost predicate Valid() {
      nodeId in allNodes && nextNode == allNodes[(IndexOf(allNodes, nodeId) + 1) % |allNodes|]
    }

    constructor (nodeId: int, peers: set<int>)
      ensures this.nodeId == nodeId && Valid() && View() == FRESH_NODE
      ensures forall x :: x in allNodes <==> x in peers || x == nodeId
    {
      var all := SortSet({nodeId} + peers);
      assert nodeId in all;
      var index := 0;
      while all[index] != nodeId
        invariant 0 <= index < |all|
        invariant nodeId in all[index..]
        decreases |all| - index
      {
        assert all[index..] == [all[index]] + all[index + 1..];
        index := index + 1;
      }
      IndexOfIs(all, index);
      this.nodeId, allNodes, nextNode := nodeId, all, all[(index + 1) % |all|];
      running, inElection, currentLeader, isLeaderFlag := false, false, None, false;
    }

    lemma AloneIffNextIsSelf()
      requires Valid()
      ensures nextNode == nodeId <==> |allNodes| == 1
    {
    }

    method DoStartElection() returns (out: Option<Message>)
      requires Valid()
      modifies this
      ensures (View(), out) == StartElection(allNodes, old(View()), nodeId)
      ensures old(inElection) ==> out == None && View() == old(View())
      ensures !old(inElection) && |allNodes| > 1 ==>
                inElection && out == Some(Election([nodeId], nodeId))
                    && unchanged(`running, `currentLeader, `isLeaderFlag)
      ensures !old(inElection) && |allNodes| == 1 ==>
                !inElection && out == None && currentLeader == Some(nodeId) && isLeaderFlag && unchanged(`running)
    {
      if inElection {
        return None;
      }
      inElection := true;
      out := DoSendElection([nodeId]);
    }

    method DoSendElection(candidates: seq<int>) returns (out: Option<Message>)
      requires Valid()
      modifies this
      ensures (View(), out) == SendElection(allNodes, old(View()), nodeId, candidates)
    {
      AloneIffNextIsSelf();
      if nextNode == nodeId {
        DoElectionComplete(nodeId);
        return None;
      }
      return Some(Election(candidates, nodeId));
    }

    /** `start`: a node that knows no leader initiates an election at once. */
    method DoStart() returns (out: Option<Message>)
      requires Valid()
      modifies this
      ensures old(running) ==> out == None && View() == old(View())
      ensures !old(running) && old(currentLeader).Some? ==> out == None && View() == Start(old(View()))
      ensures !old(running) && old(currentLeader).None? ==>
                (View(), out) == StartElection(allNodes, Start(old(View())), nodeId)
      ensures running
    {
      if running {
        return None;
      }
      running := true;
      if currentLeader == None {
        out := DoStartElection();
      } else {
        out := None;
      }
    }

    /** `stop`: whoever stops does not lead any more, but keeps what it knows. */
    method DoStop()
      modifies this
      ensures View() == Stop(old(View())) && !running && !isLeaderFlag && unchanged(`inElection, `currentLeader)
    {
      running := false;
      if isLeaderFlag {
        isLeaderFlag := false;
      }
    }

    method DoElectionComplete(winner: int)
      modifies this
      ensures View() == ElectionComplete(old(View()), nodeId, winner)
      ensures !inElection && currentLeader == Some(winner) && isLeaderFlag == (winner == nodeId) && unchanged(`running)
    {
      inElection := false;
      currentLeader := Some(winner);
      if winner == nodeId {
        isLeaderFlag := true;
      } else {
        isLeaderFlag := false;
      }
    }

    method DoHandleElection(m: Message) returns (out: Option<Message>)
      requires Valid() && m.Election?
      modifies this
      ensures (View(), out) == HandleElection(allNodes, old(View()), nodeId, m.candidates)
      ensures !running ==> out == None && View() == old(View())
      ensures running && nodeId in m.candidates ==>
                && m.candidates != []
                && var winner := MaxOf(m.candidates);
                   && !inElection && currentLeader == Some(winner) && isLeaderFlag == (winner == nodeId)
                   && out == if |allNodes| == 1 then None else Some(Elected(winner, nodeId))
      ensures running && nodeId !in m.candidates && |allNodes| > 1 ==>
                && inElection && out == Some(Election(m.candidates + [nodeId], nodeId))
                && unchanged(`currentLeader, `isLeaderFlag)
      ensures running && nodeId !in m.candidates && |allNodes| == 1 ==>
                !inElection && out == None && currentLeader == Some(nodeId) && isLeaderFlag
      ensures unchanged(`running)
    {
      AloneIffNextIsSelf();
      if !running {
        return None;
      }
      if nodeId in m.candidates {
        var winner := MaxOf(m.candidates);
        DoElectionComplete(winner);
        return if nextNode != nodeId then Some(Elected(winner, nodeId)) else None;
      }
      inElection := true;
      out := DoSendElection(m.candidates + [nodeId]);
    }

    method DoHandleElected(m: Message) returns (out: Option<Message>)
      requires m.Elected?
      modifies this
      ensures (View(), out) == HandleElected(old(View()), nodeId, m)
      ensures m.sender == nodeId ==> out == None && View() == old(View())
      ensures m.sender != nodeId ==>
                && out == Some(m) && !inElection && currentLeader == Some(m.winner)
                && isLeaderFlag == (m.winner == nodeId) && unchanged(`running)
    {
      if m.sender == nodeId {
        return None;
      }
      DoElectionComplete(m.winner);
      return Some(m);
    }
  }

  // ----- The ring as a system -----

  /** A message on its way to the node at a position, with the number of the election it belongs to. */
  datatype Packet = Packet(dest: nat, message: Message, election: nat)

  /** `sent` counts, for every election ever initiated, the messages sent for it. */
  datatype World = World(nodes: seq<NodeState>, flight: seq<Packet>, sent: seq<nat>)

  datatype Step =
    | Initiate(i: nat)
    | Deliver(k: nat)
    | Lose(k: nat)
    | Duplicate(k: nat)
    | StartNode(i: nat)
    | StopNode(i: nat)

  function Next(i: nat, n: nat): (j: nat)
    requires i < n
    ensures j < n
  {
    if i + 1 < n then i + 1 else 0
  }

  /** Node i moves to a new state and sends what it sends for election e. */
  function Act(w: World, i: nat, r: (NodeState, Option<Message>), e: nat): World
    requires i < |w.nodes| && e < |w.sent|
  {
    match r.1
    case None => w.(nodes := w.nodes[i := r.0])
    case Some(m) => World(w.nodes[i := r.0], w.flight + [Packet(Next(i, |w.nodes|), m, e)], w.sent[e := w.sent[e] + 1])
  }

  function Without(flight: seq<Packet>, k: nat): seq<Packet>
    requires k < |flight|
  {
    flight[..k] + flight[k + 1..]
  }

  ghost predicate StepTo(ids: Ring, w: World, step: Step, w': World) {
    && |w.nodes| == |ids|
    && match step
       case Initiate(i) =>
         i < |ids| && w' == Act(w.(sent := w.sent + [0]), i, StartElection(ids, w.nodes[i], ids[i]), |w.sent|)
       case Deliver(k) =>
         && k < |w.flight| && var p := w.flight[k];
         && p.dest < |ids| && p.election < |w.sent|
         && w' == Act(w.(flight := Without(w.flight, k)), p.dest,
             Handle(ids, w.nodes[p.dest], ids[p.dest], p.message), p.election)
       case Lose(k) => k < |w.flight| && w' == w.(flight := Without(w.flight, k))
       case Duplicate(k) => k < |w.flight| && w' == w.(flight := w.flight + [w.flight[k]])
       case StartNode(i) => i < |ids| && w' == w.(nodes := w.nodes[i := Start(w.nodes[i])])
       case StopNode(i) => i < |ids| && w' == w.(nodes := w.nodes[i := Stop(w.nodes[i])])
  }

  /** All nodes in one state, nothing sent. */
  ghost predicate IsFresh(ids: Ring, w: World, s: NodeState) {
    |w.nodes| == |ids| && (forall i | 0 <= i < |ids| :: w.nodes[i] == s) && w.flight == [] && w.sent == []
  }

  ghost predicate IsRun(ids: Ring, run: seq<World>, steps: seq<Step>) {
    && |run| == |steps| + 1
    && IsFresh(ids, run[0], FRESH_NODE)
    && forall i | 0 <= i < |steps| :: StepTo(ids, run[i], steps[i], run[i + 1])
  }

  // ----- Segments of the ring -----

  /** The ids of n consecutive nodes, the last of them before position d. */
  function Segment(ids: Ring, d: nat, n: nat): seq<int>
    requires d < |ids|
    decreases n
  {
    if n == 0 then []
    else
      var before := if d == 0 then |ids| - 1 else d - 1;
      Segment(ids, before, n - 1) + [ids[before]]
  }

  /** Whose ids a segment holds. */
  lemma {:induction false} SegmentHolds(ids: Ring, d: nat, n: nat, j: nat)
    requires d < |ids| && n <= |ids| && j < |ids|
    ensures ids[j] in Segment(ids, d, n) <==> d - n <= j < d || d - n + |ids| <= j
    ensures |Segment(ids, d, n)| == n
    ensures forall x | x in Segment(ids, d, n) :: x in ids
    decreases n
  {
    if n > 0 {
      var before := if d == 0 then |ids| - 1 else d - 1;
      SegmentHolds(ids, before, n - 1, j);
    }
  }

  function Greatest(ids: Ring): int {
    ids[|ids| - 1]
  }

  /** A node finds itself in the segment that ends before it only when the segment is the whole ring,
      and then the maximum is the greatest id of all. */
  lemma OwnIdMeansFullCircle(ids: Ring, d: nat, n: nat)
    requires d < |ids| && 0 < n <= |ids| && ids[d] in Segment(ids, d, n)
    ensures n == |ids| && Segment(ids, d, n) != [] && MaxOf(Segment(ids, d, n)) == Greatest(ids)
  {
    SegmentHolds(ids, d, n, d);
    SegmentHolds(ids, d, n, |ids| - 1);
    var m := MaxOf(Segment(ids, d, n));
    assert m in ids;
    assert Greatest(ids) <= m;
  }

  // ----- Safety -----

  ghost predicate KnowsRight(ids: Ring, i: nat, s: NodeState)
    requires i < |ids|
  {
    && (s.currentLeader.Some? ==> s.currentLeader.value == Greatest(ids))
    && (s.isLeaderFlag ==> i == |ids| - 1)
  }

  /** What may travel: a segment that ends just before its destination, or the right result. */
  ghost predicate CarriesRight(ids: Ring, d: nat, m: Message)
    requires d < |ids|
  {
    match m
    case Election(candidates, _) => 0 < |candidates| <= |ids| && candidates == Segment(ids, d, |candidates|)
    case Elected(winner, sender) => winner == Greatest(ids) && sender in ids
  }

  ghost predicate PacketOk(ids: Ring, p: Packet, elections: nat) {
    p.dest < |ids| && p.election < elections && CarriesRight(ids, p.dest, p.message)
  }

  ghost predicate Inv(ids: Ring, w: World) {
    && |w.nodes| == |ids|
    && (forall i | 0 <= i < |ids| :: KnowsRight(ids, i, w.nodes[i]))
    && (forall k | 0 <= k < |w.flight| :: PacketOk(ids, w.flight[k], |w.sent|))
  }

  /** What one handler may do. */
  ghost predicate ActsRight(ids: Ring, i: nat, r: (NodeState, Option<Message>))
    requires i < |ids|
  {
    KnowsRight(ids, i, r.0) && (r.1.Some? ==> CarriesRight(ids, Next(i, |ids|), r.1.value))
  }

  lemma SendElectionActsRight(ids: Ring, s: NodeState, i: nat, n: nat)
    requires i < |ids| && n < |ids| && KnowsRight(ids, i, s)
    ensures ActsRight(ids, i, SendElection(ids, s, ids[i], Segment(ids, i, n) + [ids[i]]))
  {
    var d := Next(i, |ids|);
    assert Segment(ids, d, n + 1) == Segment(ids, i, n) + [ids[i]];
    SegmentHolds(ids, d, n + 1, i);
  }

  lemma HandleActsRight(ids: Ring, s: NodeState, i: nat, m: Message)
    requires i < |ids| && KnowsRight(ids, i, s) && CarriesRight(ids, i, m)
    ensures ActsRight(ids, i, Handle(ids, s, ids[i], m))
  {
    match m
    case Election(candidates, _) =>
      if ids[i] in candidates {
        OwnIdMeansFullCircle(ids, i, |candidates|);
      } else {
        if |candidates| == |ids| {
          SegmentHolds(ids, i, |ids|, i);
        }
        SendElectionActsRight(ids, s.(inElection := true), i, |candidates|);
      }
    case Elected(winner, sender) =>
  }

  lemma ActKeepsInv(ids: Ring, w: World, i: nat, r: (NodeState, Option<Message>), e: nat)
    requires Inv(ids, w) && i < |ids| && e < |w.sent| && ActsRight(ids, i, r)
    ensures Inv(ids, Act(w, i, r, e))
  {
  }

  lemma StepKeepsInv(ids: Ring, w: World, step: Step, w': World)
    requires Inv(ids, w) && StepTo(ids, w, step, w')
    ensures Inv(ids, w')
  {
    match step
    case Initiate(i) =>
      assert Segment(ids, i, 0) == [] && [] + [ids[i]] == [ids[i]];
      SendElectionActsRight(ids, w.nodes[i].(inElection := true), i, 0);
      ActKeepsInv(ids, w.(sent := w.sent + [0]), i, StartElection(ids, w.nodes[i], ids[i]), |w.sent|);
    case Deliver(k) =>
      var p := w.flight[k];
      assert PacketOk(ids, p, |w.sent|);
      HandleActsRight(ids, w.nodes[p.dest], p.dest, p.message);
      assert Inv(ids, w.(flight := Without(w.flight, k)));
      ActKeepsInv(ids, w.(flight := Without(w.flight, k)), p.dest,
          Handle(ids, w.nodes[p.dest], ids[p.dest], p.message), p.election);
    case Lose(k) =>
    case Duplicate(k) =>
      assert PacketOk(ids, w.flight[k], |w.sent|);
    case StartNode(i) =>
    case StopNode(i) =>
  }

  lemma {:induction false} RunsKeepInv(ids: Ring, run: seq<World>, steps: seq<Step>, i: nat)
    requires i < |run| && IsRun(ids, run, steps)
    ensures Inv(ids, run[i])
    decreases i
  {
    hide Inv, StepTo;
    if i == 0 {
      InitInv(ids, run[0]);
    } else {
      RunsKeepInv(ids, run, steps, i - 1);
      assert StepTo(ids, run[i - 1], steps[i - 1], run[i - 1 + 1]);
      StepKeepsInv(ids, run[i - 1], steps[i - 1], run[i]);
    }
  }

  lemma InitInv(ids: Ring, w: World)
    requires IsFresh(ids, w, FRESH_NODE)
    ensures Inv(ids, w)
  {
  }

  /** Safety, whatever is delayed, reordered, duplicated or lost and whoever starts and stops: a known
      leader is the greatest id, and at most one node considers itself the leader. */
  lemma OneLeader(ids: Ring, run: seq<World>, steps: seq<Step>, i: nat, a: nat, b: nat)
    requires i < |run| && IsRun(ids, run, steps) && a < |ids| && b < |ids|
    ensures |run[i].nodes| == |ids|
    ensures run[i].nodes[a].currentLeader.Some? ==> run[i].nodes[a].currentLeader.value == Greatest(ids)
    ensures run[i].nodes[a].isLeaderFlag && run[i].nodes[b].isLeaderFlag ==> a == b
  {
    RunsKeepInv(ids, run, steps, i);
    assert KnowsRight(ids, a, run[i].nodes[a]) && KnowsRight(ids, b, run[i].nodes[b]);
  }

  // ----- How many messages -----

  /** Steps forward from position d to position s. */
  function Distance(d: nat, s: nat, n: nat): nat
    requires d < n && s < n
  {
    if d <= s then s - d else s + n - d
  }

  /** How many more messages a message can still give rise to. */
  function Remaining(ids: Ring, p: Packet): nat {
    if p.dest >= |ids| then 0
    else match p.message
      case Election(candidates, _) => if |candidates| <= |ids| then 2 * |ids| - |candidates| else 0
      case Elected(_, sender) => if sender in ids then Distance(p.dest, IndexOf(ids, sender), |ids|) else 0
  }

  function Pending(ids: Ring, flight: seq<Packet>, e: nat): nat {
    if flight == [] then 0
    else Pending(ids, flight[..|flight| - 1], e)
         + if flight[|flight| - 1].election == e then Remaining(ids, flight[|flight| - 1]) else 0
  }

  lemma {:induction false} PendingAdds(ids: Ring, a: seq<Packet>, b: seq<Packet>, e: nat)
    ensures Pending(ids, a + b, e) == Pending(ids, a, e) + Pending(ids, b, e)
  {
    if b == [] {
      assert a + b == a;
    } else {
      assert (a + b)[..|a + b| - 1] == a + b[..|b| - 1];
      PendingAdds(ids, a, b[..|b| - 1], e);
    }
  }

  lemma PendingOfOne(ids: Ring, p: Packet, e: nat)
    ensures Pending(ids, [p], e) == if p.election == e then Remaining(ids, p) else 0
  {
    assert [p][..0] == [];
  }

  lemma PendingWithout(ids: Ring, flight: seq<Packet>, k: nat, e: nat)
    requires k < |flight|
    ensures Pending(ids, flight, e) == Pending(ids, Without(flight, k), e) + Pending(ids, [flight[k]], e)
  {
    assert flight == flight[..k] + [flight[k]] + flight[k + 1..];
    PendingAdds(ids, flight[..k] + [flight[k]], flight[k + 1..], e);
    PendingAdds(ids, flight[..k], [flight[k]], e);
    PendingAdds(ids, flight[..k], flight[k + 1..], e);
  }

  /** Every message a delivery causes uses up one of those the delivered message could cause. */
  lemma DeliveryUsesOne(ids: Ring, s: NodeState, p: Packet)
    requires p.dest < |ids| && CarriesRight(ids, p.dest, p.message)
    ensures var r := Handle(ids, s, ids[p.dest], p.message);
            r.1.Some? ==> Remaining(ids, Packet(Next(p.dest, |ids|), r.1.value, p.election)) + 1 <= Remaining(ids, p)
  {
    var i := p.dest;
    match p.message
    case Election(candidates, _) =>
      if ids[i] in candidates {
        OwnIdMeansFullCircle(ids, i, |candidates|);
      } else if |candidates| == |ids| {
        SegmentHolds(ids, i, |ids|, i);
      }
    case Elected(_, sender) =>
      assert IndexOf(ids, sender) == i ==> sender == ids[i];
  }

  ghost predicate Bounded(ids: Ring, w: World) {
    forall e | 0 <= e < |w.sent| :: w.sent[e] + Pending(ids, w.flight, e) <= 2 * |ids|
  }

  lemma {:induction false} NothingPending(ids: Ring, flight: seq<Packet>, e: nat)
    requires forall k | 0 <= k < |flight| :: flight[k].election != e
    ensures Pending(ids, flight, e) == 0
  {
    if flight != [] {
      NothingPending(ids, flight[..|flight| - 1], e);
    }
  }

  lemma StepKeepsBound(ids: Ring, w: World, step: Step, w': World)
    requires Inv(ids, w) && Bounded(ids, w) && StepTo(ids, w, step, w') && !step.Duplicate?
    ensures Bounded(ids, w')
  {
    match step
    case Initiate(i) =>
      InitiateKeepsBound(ids, w, i);
    case Deliver(k) =>
      DeliverKeepsBound(ids, w, k);
    case Lose(k) =>
      forall e | 0 <= e < |w.sent| ensures w.sent[e] + Pending(ids, w'.flight, e) <= 2 * |ids| {
        PendingWithout(ids, w.flight, k, e);
      }
    case StartNode(i) =>
    case StopNode(i) =>
  }

  lemma InitiateKeepsBound(ids: Ring, w: World, i: nat)
    requires i < |ids| && Inv(ids, w) && Bounded(ids, w)
    ensures Bounded(ids, Act(w.(sent := w.sent + [0]), i, StartElection(ids, w.nodes[i], ids[i]), |w.sent|))
  {
    var r := StartElection(ids, w.nodes[i], ids[i]);
    var w' := Act(w.(sent := w.sent + [0]), i, r, |w.sent|);
    forall e | 0 <= e < |w'.sent| ensures w'.sent[e] + Pending(ids, w'.flight, e) <= 2 * |ids| {
      if e == |w.sent| {
        assert forall k | 0 <= k < |w.flight| :: PacketOk(ids, w.flight[k], |w.sent|);
        NothingPending(ids, w.flight, e);
      }
      if r.1.Some? {
        var p := Packet(Next(i, |ids|), r.1.value, |w.sent|);
        PendingAdds(ids, w.flight, [p], e);
        PendingOfOne(ids, p, e);
      }
    }
  }

  lemma DeliverKeepsBound(ids: Ring, w: World, k: nat)
    requires k < |w.flight| && Inv(ids, w) && Bounded(ids, w)
    requires w.flight[k].dest < |ids| && w.flight[k].election < |w.sent|
    ensures var p := w.flight[k];
            Bounded(ids, Act(w.(flight := Without(w.flight, k)), p.dest,
                Handle(ids, w.nodes[p.dest], ids[p.dest], p.message), p.election))
  {
    var p := w.flight[k];
    assert PacketOk(ids, p, |w.sent|);
    var r := Handle(ids, w.nodes[p.dest], ids[p.dest], p.message);
    var rest := Without(w.flight, k);
    var w' := Act(w.(flight := rest), p.dest, r, p.election);
    DeliveryUsesOne(ids, w.nodes[p.dest], p);
    hide Handle, CarriesRight, Remaining;
    forall e | 0 <= e < |w'.sent| ensures w'.sent[e] + Pending(ids, w'.flight, e) <= 2 * |ids| {
      PendingWithout(ids, w.flight, k, e);
      PendingOfOne(ids, p, e);
      if r.1.Some? {
        var q := Packet(Next(p.dest, |ids|), r.1.value, p.election);
        PendingAdds(ids, rest, [q], e);
        PendingOfOne(ids, q, e);
      }
    }
  }

  lemma {:induction false} RunsKeepBound(ids: Ring, run: seq<World>, steps: seq<Step>, i: nat)
    requires i < |run| && IsRun(ids, run, steps) && forall k | 0 <= k < |steps| :: !steps[k].Duplicate?
    ensures Inv(ids, run[i]) && Bounded(ids, run[i])
    decreases i
  {
    RunsKeepInv(ids, run, steps, i);
    if i > 0 {
      RunsKeepBound(ids, run, steps, i - 1);
      assert StepTo(ids, run[i - 1], steps[i - 1], run[i - 1 + 1]);
      hide Inv, Bounded, StepTo;
      StepKeepsBound(ids, run[i - 1], steps[i - 1], run[i]);
    }
  }

  /** An initiated election sends at most 2N messages, in any run in which none is duplicated. */
  lemma ElectionsAreShort(ids: Ring, run: seq<World>, steps: seq<Step>, i: nat, e: nat)
    requires i < |run| && IsRun(ids, run, steps) && forall k | 0 <= k < |steps| :: !steps[k].Duplicate?
    requires e < |run[i].sent|
    ensures run[i].sent[e] <= 2 * |ids|
  {
    RunsKeepBound(ids, run, steps, i);
  }

  // ----- What a quiet ring knows -----

  /** All nodes run, nothing is lost or duplicated. */
  ghost predicate IsSmoothRun(ids: Ring, run: seq<World>, steps: seq<Step>) {
    && |run| == |steps| + 1
    && IsFresh(ids, run[0], Start(FRESH_NODE))
    && forall i | 0 <= i < |steps| ::
        StepTo(ids, run[i], steps[i], run[i + 1]) && (steps[i].Initiate? || steps[i].Deliver?)
  }

  ghost predicate Knows(ids: Ring, nodes: seq<NodeState>, j: nat) {
    j < |nodes| && nodes[j].currentLeader == Some(Greatest(ids))
  }

  /** Running, and aware of its own leadership. */
  ghost predicate Steady(ids: Ring, nodes: seq<NodeState>) {
    && |nodes| == |ids|
    && (forall i | 0 <= i < |ids| :: nodes[i].running)
    && (Knows(ids, nodes, |ids| - 1) ==> nodes[|ids| - 1].isLeaderFlag)
  }

  /** The nodes a result has passed: from its sender to just before its destination. */
  ghost predicate HasPassed(ids: Ring, p: Packet, j: nat)
    requires p.dest < |ids| && p.message.Elected? && p.message.sender in ids && j < |ids|
  {
    var s := IndexOf(ids, p.message.sender);
    p.dest == s || Distance(s, j, |ids|) < Distance(s, p.dest, |ids|)
  }

  /** The first election's message is on its way, and a result has been learned wherever it passed. */
  ghost predicate Carries(ids: Ring, nodes: seq<NodeState>, p: Packet) {
    && p.election == 0 && p.dest < |ids|
    && match p.message
       case Election(_, _) => true
       case Elected(_, sender) => sender in ids && forall j: nat | j < |ids| && HasPassed(ids, p, j) ::
           Knows(ids, nodes, j)
  }

  ghost predicate IsOnItsWay(ids: Ring, nodes: seq<NodeState>, flight: seq<Packet>) {
    (forall j: nat | j < |ids| :: Knows(ids, nodes, j)) || exists p :: p in flight && Carries(ids, nodes, p)
  }

  ghost predicate Progress(ids: Ring, w: World) {
    w.sent != [] ==> IsOnItsWay(ids, w.nodes, w.flight)
  }

  /** A handler's effect on what is known: nothing is forgotten, and what it sends on carries on. */
  lemma HandleCarries(ids: Ring, nodes: seq<NodeState>, p: Packet)
    requires Steady(ids, nodes) && p.dest < |ids| && CarriesRight(ids, p.dest, p.message) && Carries(ids, nodes, p)
    requires KnowsRight(ids, p.dest, nodes[p.dest])
    ensures var r := Handle(ids, nodes[p.dest], ids[p.dest], p.message);
            var nodes' := nodes[p.dest := r.0];
            if r.1.Some? then Carries(ids, nodes', Packet(Next(p.dest, |ids|), r.1.value, p.election))
            else forall j: nat | j < |ids| :: Knows(ids, nodes', j)
  {
    if p.message.Election? {
      ElectionCarries(ids, nodes, p);
    } else {
      ElectedCarries(ids, nodes, p);
    }
  }

  lemma ElectionCarries(ids: Ring, nodes: seq<NodeState>, p: Packet)
    requires Steady(ids, nodes) && p.dest < |ids| && CarriesRight(ids, p.dest, p.message) && Carries(ids, nodes, p)
    requires p.message.Election?
    ensures var r := Handle(ids, nodes[p.dest], ids[p.dest], p.message);
            var nodes' := nodes[p.dest := r.0];
            if r.1.Some? then Carries(ids, nodes', Packet(Next(p.dest, |ids|), r.1.value, p.election))
            else forall j: nat | j < |ids| :: Knows(ids, nodes', j)
  {
    var i, candidates := p.dest, p.message.candidates;
    IndexOfIs(ids, i);
    SegmentHolds(ids, i, |candidates|, i);
    if ids[i] in candidates {
      OwnIdMeansFullCircle(ids, i, |candidates|);
    }
  }

  lemma ElectedCarries(ids: Ring, nodes: seq<NodeState>, p: Packet)
    requires Steady(ids, nodes) && p.dest < |ids| && CarriesRight(ids, p.dest, p.message) && Carries(ids, nodes, p)
    requires p.message.Elected?
    ensures var r := Handle(ids, nodes[p.dest], ids[p.dest], p.message);
            var nodes' := nodes[p.dest := r.0];
            if r.1.Some? then Carries(ids, nodes', Packet(Next(p.dest, |ids|), r.1.value, p.election))
            else forall j: nat | j < |ids| :: Knows(ids, nodes', j)
  {
    var i := p.dest;
    var r := Handle(ids, nodes[i], ids[i], p.message);
    IndexOfIs(ids, i);
    if p.message.sender == ids[i] {
      assert nodes[i := r.0] == nodes;
      forall j: nat | j < |ids| ensures Knows(ids, nodes, j) {
        assert HasPassed(ids, p, j);
      }
    } else {
      var q := Packet(Next(i, |ids|), r.1.value, p.election);
      forall j: nat | j < |ids| && HasPassed(ids, q, j) ensures Knows(ids, nodes[i := r.0], j) {
        assert j != i ==> HasPassed(ids, p, j);
      }
    }
  }

  lemma HandleRemembers(ids: Ring, nodes: seq<NodeState>, i: nat, m: Message)
    requires Steady(ids, nodes) && i < |ids| && CarriesRight(ids, i, m) && KnowsRight(ids, i, nodes[i])
    ensures var nodes' := nodes[i := Handle(ids, nodes[i], ids[i], m).0];
            Steady(ids, nodes') && forall j: nat :: Knows(ids, nodes, j) ==> Knows(ids, nodes', j)
  {
    match m
    case Election(candidates, _) =>
      SegmentHolds(ids, i, |candidates|, i);
      if ids[i] in candidates {
        OwnIdMeansFullCircle(ids, i, |candidates|);
      }
    case Elected(_, _) =>
  }

  lemma CarriesStays(ids: Ring, nodes: seq<NodeState>, nodes': seq<NodeState>, p: Packet)
    requires Carries(ids, nodes, p) && forall j: nat :: Knows(ids, nodes, j) ==> Knows(ids, nodes', j)
    ensures Carries(ids, nodes', p)
  {
  }

  /** A packet that is not the one delivered stays in flight. */
  lemma OthersStay(flight: seq<Packet>, k: nat, j: nat, more: seq<Packet>)
    requires k < |flight| && j < |flight| && j != k
    ensures flight[j] in Without(flight, k) + more
  {
    assert Without(flight, k)[if j < k then j else j - 1] == flight[j];
  }

  lemma DeliveredCarries(ids: Ring, nodes: seq<NodeState>, flight: seq<Packet>, k: nat, r: (NodeState, Option<Message>))
    requires Steady(ids, nodes) && IsOnItsWay(ids, nodes, flight) && k < |flight|
    requires var p := flight[k];
             && p.dest < |ids| && CarriesRight(ids, p.dest, p.message) && KnowsRight(ids, p.dest, nodes[p.dest])
             && r == Handle(ids, nodes[p.dest], ids[p.dest], p.message)
    ensures var p := flight[k];
            var more := match r.1 { case None => [] case Some(m) => [Packet(Next(p.dest, |ids|), m, p.election)] };
            && Steady(ids, nodes[p.dest := r.0])
            && IsOnItsWay(ids, nodes[p.dest := r.0], Without(flight, k) + more)
  {
    assert |nodes| == |ids|;
    hide Handle, Carries, CarriesRight, KnowsRight, Steady;
    var p := flight[k];
    var more := match r.1 { case None => [] case Some(m) => [Packet(Next(p.dest, |ids|), m, p.election)] };
    var nodes' := nodes[p.dest := r.0];
    HandleRemembers(ids, nodes, p.dest, p.message);
    if !(forall j: nat | j < |ids| :: Knows(ids, nodes, j)) {
      var q :| q in flight && Carries(ids, nodes, q);
      if q == p {
        HandleCarries(ids, nodes, p);
        assert r.1.Some? ==> more[0] in Without(flight, k) + more;
      } else {
        var j :| 0 <= j < |flight| && flight[j] == q;
        CarriesStays(ids, nodes, nodes', q);
        OthersStay(flight, k, j, more);
      }
    }
  }

  lemma DeliverKeepsProgress(ids: Ring, w: World, k: nat, w': World)
    requires Inv(ids, w) && Steady(ids, w.nodes) && Progress(ids, w) && StepTo(ids, w, Deliver(k), w')
    ensures Steady(ids, w'.nodes) && Progress(ids, w')
  {
    hide Handle, Carries, CarriesRight, KnowsRight, Steady, IsOnItsWay;
    var p := w.flight[k];
    assert PacketOk(ids, p, |w.sent|);
    DeliveredCarries(ids, w.nodes, w.flight, k, Handle(ids, w.nodes[p.dest], ids[p.dest], p.message));
    assert Without(w.flight, k) + [] == Without(w.flight, k);
  }

  lemma InitiateKeepsProgress(ids: Ring, w: World, i: nat, w': World)
    requires Inv(ids, w) && Steady(ids, w.nodes) && Progress(ids, w) && StepTo(ids, w, Initiate(i), w')
    requires w.sent == [] ==> forall j | 0 <= j < |ids| :: !w.nodes[j].inElection
    ensures Steady(ids, w'.nodes) && Progress(ids, w')
  {
    assert forall j: nat :: Knows(ids, w.nodes, j) ==> Knows(ids, w'.nodes, j);
    if w.sent == [] {
      if |ids| > 1 {
        var q := w'.flight[|w'.flight| - 1];
        assert q in w'.flight && Carries(ids, w'.nodes, q);
      }
    } else if exists q :: q in w.flight && Carries(ids, w.nodes, q) {
      var q :| q in w.flight && Carries(ids, w.nodes, q);
      CarriesStays(ids, w.nodes, w'.nodes, q);
      assert q in w'.flight;
    }
  }

  /** Before the first election nothing happens at all. */
  ghost predicate Quiet(w: World) {
    w.sent == [] ==> w.flight == [] && forall j | 0 <= j < |w.nodes| :: !w.nodes[j].inElection
  }

  lemma {:induction false} SmoothRunsProgress(ids: Ring, run: seq<World>, steps: seq<Step>, i: nat)
    requires i < |run| && IsSmoothRun(ids, run, steps)
    ensures Inv(ids, run[i]) && Steady(ids, run[i].nodes) && Progress(ids, run[i]) && Quiet(run[i])
    decreases i
  {
    if i > 0 {
      SmoothRunsProgress(ids, run, steps, i - 1);
      var w, step, w' := run[i - 1], steps[i - 1], run[i];
      assert StepTo(ids, w, step, run[i - 1 + 1]);
      SmoothStep(ids, w, step, w');
    }
  }

  lemma SmoothStep(ids: Ring, w: World, step: Step, w': World)
    requires Inv(ids, w) && Steady(ids, w.nodes) && Progress(ids, w) && Quiet(w)
    requires StepTo(ids, w, step, w') && (step.Initiate? || step.Deliver?)
    ensures Inv(ids, w') && Steady(ids, w'.nodes) && Progress(ids, w') && Quiet(w')
  {
    StepKeepsInv(ids, w, step, w');
    if step.Initiate? {
      InitiateKeepsProgress(ids, w, step.i, w');
    } else {
      DeliverKeepsProgress(ids, w, step.k, w');
    }
  }

  /** Completion: where all nodes run and nothing is lost, once an election was initiated and no
      message is left, every node knows the greatest id, and exactly that node leads. */
  lemma QuietRingKnowsLeader(ids: Ring, run: seq<World>, steps: seq<Step>, j: nat)
    requires IsSmoothRun(ids, run, steps) && j < |ids|
    requires run[|steps|].flight == [] && run[|steps|].sent != []
    ensures |run[|steps|].nodes| == |ids| && run[|steps|].nodes[j].currentLeader == Some(Greatest(ids))
    ensures run[|steps|].nodes[j].isLeaderFlag <==> j == |ids| - 1
  {
    SmoothRunsProgress(ids, run, steps, |steps|);
    var w := run[|steps|];
    assert Knows(ids, w.nodes, j) && Knows(ids, w.nodes, |ids| - 1) && KnowsRight(ids, j, w.nodes[j]);
  }
}
