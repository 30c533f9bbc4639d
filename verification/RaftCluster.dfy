/** A cluster of Raft nodes as a step system. Requests and replies stay in `sent` for ever, so any
    of them may be lost, delayed, duplicated or reordered; a node may crash and restart at any time. */
module RaftCluster {
  import opened Wrappers
  import opened RaftLogs
  import opened RaftNodes
  import RaftCompaction

  datatype Message =
    | VoteCall(to: Id, vote: VoteRequest)
    | VoteReply(from: Id, to: Id, requestTerm: nat, replyTerm: nat, granted: bool)
    | AppendCall(to: Id, append: AppendRequest)
    | AppendReply(from: Id, to: Id, requestTerm: nat, prevIndex: nat, count: nat, replyTerm: nat, success: bool)

  // ----- History: what has happened so far. No handler reads it. -----

  /** A term's leader, the votes that elected it and its log at that moment. */
  datatype Election = Election(leader: Id, quorum: set<Id>, log: seq<Entry>)

  datatype Ballot = Ballot(voter: Id, term: nat)

  /** Whom a ballot went to and the voter's log when it was first cast. */
  datatype Grant = Grant(candidate: Id, log: seq<Entry>)

  /** In `term`, `node` told the leader that it holds the leader's first `length` entries. */
  datatype Ack = Ack(node: Id, term: nat, length: nat)

  /** The leader of `term` moved its commit index to `index` on the word of `quorum`. */
  datatype Commit = Commit(term: nat, index: nat, quorum: set<Id>)

  datatype Application = Application(node: Id, index: nat, entry: Entry)

  datatype History = History(
    elections: map<nat, Election>,
    logs: map<nat, seq<Entry>>,       // the log of each term's leader, as far as it got
    grants: map<Ballot, Grant>,
    acks: set<Ack>,
    commits: set<Commit>,
    applied: set<Application>,
    leaderships: set<(Id, nat)>)      // every time a node became leader, with its term then

  datatype Cluster = Cluster(
    servers: set<Id>,
    snapshotInterval: nat,
    nodes: map<Id, NodeState>,
    sent: set<Message>,
    history: History)
  {
    function ConfigOf(n: Id): Config {
      Config(n, servers - {n}, snapshotInterval)
    }
  }

  datatype Step =
    | Timeout(node: Id)
    | DeliverVoteCall(m: Message)
    | DeliverVoteReply(m: Message)
    | SendAppend(node: Id, peer: Id)
    | DeliverAppendCall(m: Message)
    | DeliverAppendReply(m: Message, majorityMatch: nat)
    | CallFails(node: Id, peer: Id)   // the RPC layer answers (0, False) on its own
    | Submit(node: Id, command: Command)
    | Crash(node: Id)
  {
    function Actor(): Id {
      match this
      case Timeout(n) => n
      case DeliverVoteCall(m) => m.to
      case DeliverVoteReply(m) => m.to
      case SendAppend(n, _) => n
      case DeliverAppendCall(m) => m.to
      case DeliverAppendReply(m, _) => m.to
      case CallFails(n, _) => n
      case Submit(n, _) => n
      case Crash(n) => n
    }
  }

  const NO_HISTORY := History(map[], map[], map[], {}, {}, {}, {})

  ghost predicate Init(s: Cluster) {
    && s.nodes.Keys == s.servers
    && (forall n | n in s.nodes :: s.nodes[n] == FRESH_NODE)
    && s.sent == {}
    && s.history == NO_HISTORY
  }

  ghost predicate Enabled(s: Cluster, step: Step) {
    && step.Actor() in s.servers
    && step.Actor() in s.nodes
    && s.nodes[step.Actor()].log.lastIncludedIndex <= s.nodes[step.Actor()].lastApplied
    && match step
       case Timeout(n) => s.nodes[n].role != Leader
       case DeliverVoteCall(m) => m in s.sent && m.VoteCall?
       case DeliverVoteReply(m) => m in s.sent && m.VoteReply?
       case SendAppend(n, peer) => peer in s.servers - {n}
       case DeliverAppendCall(m) => m in s.sent && m.AppendCall?
       case DeliverAppendReply(m, k) =>
         && m in s.sent && m.AppendReply?
         && IsMajorityMatch(RecordMatch(s.nodes[m.to], m.from, m.prevIndex + m.count).matchIndex,
                            s.nodes[m.to].log.Length(), s.ConfigOf(m.to).Majority(), k)
       case CallFails(n, peer) => peer in s.servers - {n}
       case Submit(n, _) => true
       case Crash(n) => true
  }

  /** The hypothesis on replies. raft_node.py never compares the term of the request with its
      current term, so a run must not let a vote that decides an election, or an acknowledgement a
      leader records, arrive in a later term than it was given for. All other replies are free. */
  ghost predicate RepliesInTerm(s: Cluster, step: Step)
    requires Enabled(s, step)
  {
    match step
    case DeliverVoteReply(m) =>
      var node := s.nodes[m.to];
      var node' := OnVoteReply(node, s.ConfigOf(m.to), m.from, m.requestTerm, m.replyTerm, m.granted);
      node.role == Candidate && node'.role == Leader ==> m.requestTerm == node.currentTerm
    case DeliverAppendReply(m, _) =>
      var node := s.nodes[m.to];
      var recorded := node.role == Leader && m.success && m.count > 0 && m.replyTerm <= node.currentTerm;
      recorded ==> m.requestTerm == node.currentTerm
    case _ => true
  }

  ghost predicate NoCompaction(s: Cluster) {
    forall n | n in s.nodes :: s.nodes[n].log.lastIncludedIndex == 0
  }

  // ----- Transitions -----

  function Move(s: Cluster, n: Id, node: NodeState, out: set<Message>, h: History): Cluster {
    s.(nodes := s.nodes[n := node], sent := s.sent + out, history := h)
  }

  function RecordGrant(h: History, b: Ballot, g: Grant): History {
    if b in h.grants then h else h.(grants := h.grants[b := g])
  }

  function RecordElection(h: History, n: Id, term: nat, quorum: set<Id>, log: seq<Entry>): History {
    h.(elections := h.elections[term := Election(n, quorum, log)],
       logs := h.logs[term := log],
       acks := h.acks + {Ack(n, term, |log|)},
       leaderships := h.leaderships + {(n, term)})
  }

  function RecordApplications(h: History, n: Id, from: nat, to: nat, log: seq<Entry>): History {
    if to <= from then h else h.(applied := h.applied + Applications(n, from, to, log))
  }

  function Applications(n: Id, from: nat, to: nat, log: seq<Entry>): set<Application> {
    if to <= from || |log| < to then {}
    else Applications(n, from, to - 1, log) + {Application(n, to, log[to - 1])}
  }

  ghost function After(s: Cluster, step: Step): Cluster
    requires Enabled(s, step)
  {
    var n := step.Actor();
    var node := s.nodes[n];
    var c := s.ConfigOf(n);
    var h := s.history;
    match step
    case Timeout(_) =>
      var node' := StartElection(node, c);
      Move(s, n, node', (set p | p in c.peers :: VoteCall(p, VoteRequestOf(node', c))),
           RecordGrant(h, Ballot(n, node'.currentTerm), Grant(n, node.log.entries)))
    case DeliverVoteCall(m) =>
      var (node', granted) := HandleRequestVote(node, m.vote);
      Move(s, n, node', {VoteReply(n, m.vote.candidate, m.vote.term, node'.currentTerm, granted)},
           if granted then RecordGrant(h, Ballot(n, m.vote.term), Grant(m.vote.candidate, node.log.entries)) else h)
    case DeliverVoteReply(m) =>
      var node' := OnVoteReply(node, c, m.from, m.requestTerm, m.replyTerm, m.granted);
      Move(s, n, node', {},
           if node.role == Candidate && node'.role == Leader
           then RecordElection(h, n, node'.currentTerm, node'.votes[m.requestTerm], node'.log.entries) else h)
    case SendAppend(_, peer) =>
      var out := match AppendRequestOf(node, c, peer) { case Some(r) => {AppendCall(peer, r)} case None => {} };
      Move(s, n, node, out, h)
    case DeliverAppendCall(m) =>
      var r := m.append;
      var (node', success) := HandleAppendEntries(node, r, c.snapshotInterval);
      var h1 := if success then h.(acks := h.acks + {Ack(n, r.term, r.prevIndex + |r.entries|)}) else h;
      Move(s, n, node',
           {AppendReply(n, r.leader, r.term, r.prevIndex, |r.entries|, node'.currentTerm, success)},
           RecordApplications(h1, n, node.lastApplied, node'.lastApplied, node'.log.entries))
    case DeliverAppendReply(m, k) =>
      var node' := OnAppendReply(node, c, m.from, m.prevIndex, m.count, m.replyTerm, m.success, k);
      var h1 := if node'.commitIndex > node.commitIndex
                then h.(commits := h.commits + {Commit(node.currentTerm, k, CommitQuorum(n, node', k))}) else h;
      Move(s, n, node', {}, RecordApplications(h1, n, node.lastApplied, node'.lastApplied, node'.log.entries))
    case CallFails(_, peer) =>
      Move(s, n, OnAppendReply(node, c, peer, 0, 0, 0, false, 0), {}, h)
    case Submit(_, command) =>
      var node' := SubmitCommand(node, command);
      Move(s, n, node', {},
           if node.role != Leader then h
           else h.(logs := h.logs[node.currentTerm := node'.log.entries],
                   acks := h.acks + {Ack(n, node.currentTerm, |node'.log.entries|)}))
    case Crash(_) =>
      Move(s, n, Restart(node), {}, h)
  }

  function CommitQuorum(n: Id, node: NodeState, k: nat): set<Id> {
    {n} + set p | p in node.matchIndex && node.matchIndex[p] >= k
  }

  // ----- Runs -----

  /** `run` goes from an initial state by enabled steps, under the two hypotheses. */
  ghost predicate IsRun(run: seq<Cluster>, steps: seq<Step>) {
    && |run| == |steps| + 1
    && Init(run[0])
    && (forall i | 0 <= i < |run| :: NoCompaction(run[i]))
    && (forall i | 0 <= i < |steps| :: Transition(run[i], steps[i], run[i + 1]))
  }

  ghost predicate Transition(s: Cluster, step: Step, s': Cluster) {
    Enabled(s, step) && RepliesInTerm(s, step) && s' == After(s, step)
  }

  // ----- Runs of nodes that compact their logs -----

  /** The hypothesis on compaction: an AppendEntries that a node accepts brings something new, or repeats
      nothing of another term than the snapshot's inside the snapshot. */
  ghost predicate AppendIsHarmless(s: Cluster, step: Step)
    requires Enabled(s, step)
  {
    step.DeliverAppendCall? && RaftCompaction.IsAccepted(s.nodes[step.m.to], step.m.append) ==>
      RaftCompaction.IsHarmless(s.nodes[step.m.to].log, step.m.append)
  }

  ghost predicate IsCompactingRun(run: seq<Cluster>, steps: seq<Step>) {
    && |run| == |steps| + 1
    && Init(run[0]) && run[0].snapshotInterval >= 1
    && forall i | 0 <= i < |steps| :: CompactingTransition(run[i], steps[i], run[i + 1])
  }

  ghost predicate CompactingTransition(s: Cluster, step: Step, s': Cluster) {
    Enabled(s, step) && RepliesInTerm(s, step) && AppendIsHarmless(s, step) && s' == After(s, step)
  }
}
