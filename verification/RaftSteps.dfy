/** Every step of a Raft cluster keeps the invariant. For each step: what it does to the node that
    takes it, what is new in the history and in the network, and then the frame. */
module RaftSteps {
  import opened Wrappers
  import opened RaftLogs
  import opened RaftNodes
  import opened RaftCluster
  import opened RaftInvariants
  import opened RaftFrame
  import opened RaftCompleteness

  lemma InvNode(s: Cluster, n: Id)
    requires NodesOk(s) && n in s.servers
    ensures n in s.nodes && NodeOk(s.history, s.servers, n, s.nodes[n])
    ensures LogOk(s.history, s.nodes[n].log.entries) && StoreOk(s.nodes[n])
  {
  }

  lemma InvMessage(s: Cluster, m: Message)
    requires MessagesOk(s) && m in s.sent
    ensures MessageOk(s, m)
  {
  }

  lemma InvLeader(s: Cluster, n: Id)
    requires NodesOk(s) && ElectionsOk(s) && n in s.servers
    requires n in s.nodes && s.nodes[n].role == Leader
    ensures LeaderOk(s.history, s.servers, n, s.nodes[n])
    ensures TermLogOk(s.history, s.nodes[n].currentTerm)
  {
    InvNode(s, n);
  }

  lemma SameLogRetains(s: Cluster, s': Cluster, n: Id)
    requires n in s.nodes && n in s'.nodes
    requires s.nodes[n].log.entries <= s'.nodes[n].log.entries
    ensures KeepsAcknowledged(s, s', n)
  {
    forall a, k | a in s.history.acks && a.node == n && 0 <= k <= a.length
      ensures Retains(s'.history, a, k, s.nodes[n].log.entries, s'.nodes[n].log.entries, s'.nodes[n].currentTerm)
    {
      var log, log' := s.nodes[n].log.entries, s'.nodes[n].log.entries;
      if k <= |log| {
        assert log'[..k] == log[..k];
      }
    }
  }

  /** A node that is not a leader, with its log and what it applied unchanged, in the same or a later term. */
  lemma SameLogNode(h: History, h': History, servers: set<Id>, n: Id, node: NodeState, node': NodeState)
    requires Grows(h, h') && NodeOk(h, servers, n, node)
    requires node' == node.(currentTerm := node'.currentTerm, votedFor := node'.votedFor, role := node'.role,
        votes := node'.votes)
    requires node'.role != Leader && node'.currentTerm >= node.currentTerm
    requires VotesOk(h', servers, n, node'.votes)
    ensures NodeOk(h', servers, n, node')
  {
    NodeLogOkGrows(h, h', node, node');
  }

  lemma VotesOkAdd(h: History, servers: set<Id>, n: Id, votes: map<nat, set<Id>>, t: nat, voters: set<Id>)
    requires VotesOk(h, servers, n, votes) && BallotsOk(h, servers, n, t, voters)
    ensures VotesOk(h, servers, n, votes[t := voters])
  {
    var votes' := votes[t := voters];
    forall u | u in votes' ensures BallotsOk(h, servers, n, u, votes'[u]) {
      if u != t {
        assert BallotsOk(h, servers, n, u, votes[u]);
      }
    }
  }

  /** A step that changes no log and adds nothing to the history. */
  lemma QuietMove(s: Cluster, n: Id, node': NodeState, out: set<Message>)
    requires Inv(s) && n in s.nodes && n in s.servers
    requires Progresses(s.nodes[n], node') && node'.log.entries == s.nodes[n].log.entries
    requires NodeOk(s.history, s.servers, n, node')
    requires forall m | m in out && m !in s.sent :: MessageOk(Move(s, n, node', out, s.history), m)
    ensures Inv(Move(s, n, node', out, s.history))
  {
    hide Inv, NodeOk, MessageOk;
    var s' := Move(s, n, node', out, s.history);
    MoveMoves(s, n, node', out, s.history);
    SameLogRetains(s, s', n);
    QuietStepKeepsInv(s, s', n);
  }

  // ----- Elections -----

  lemma TimeoutStep(s: Cluster, n: Id)
    requires Inv(s) && Enabled(s, Timeout(n))
    ensures Inv(After(s, Timeout(n)))
  {
    hide NodesOk, ElectionsOk, GrantsOk, AcksOk, OutcomesOk, MessagesOk, NodeLogOk, PeersOk, VotesOk, LogOk;
    var s' := After(s, Timeout(n));
    var node, node' := s.nodes[n], s'.nodes[n];
    var b := Ballot(n, node'.currentTerm);
    InvNode(s, n);
    BallotIsNew(s, b);
    SameLogRetains(s, s', n);
    VotesOkGrows(s.history, s'.history, s.servers, n, node.votes);
    VotesOkAdd(s'.history, s.servers, n, node.votes, b.term, {n});
    SameLogNode(s.history, s'.history, s.servers, n, node, node');
    LogOkGrows(s.history, s'.history, node.log.entries);
    AcksThenBallot(s, s', b);
    QuietStepKeepsInv(s, s', n);
  }

  lemma BallotIsNew(s: Cluster, b: Ballot)
    requires GrantsOk(s) && b.voter in s.nodes && s.nodes[b.voter].currentTerm < b.term
    ensures b !in s.history.grants
  {
    assert b in s.history.grants ==> GrantOk(s, b);
  }

  /** A ballot cast in a later term than the node's own, on its log as it is. */
  lemma AcksThenBallot(s: Cluster, s': Cluster, b: Ballot)
    requires AcksOk(s) && Grows(s.history, s'.history)
    requires b.voter in s.nodes && b in s'.history.grants && s'.history.grants[b].log == s.nodes[b.voter].log.entries
    requires s.nodes[b.voter].currentTerm < b.term
        || (s.nodes[b.voter].currentTerm == b.term && b.term !in s.history.elections)
    ensures forall a | a in s.history.acks :: AckBeforeBallot(s'.history, a, b)
  {
    forall a | a in s.history.acks ensures AckBeforeBallot(s'.history, a, b) {
      if a.node == b.voter {
        assert AckOk(s.history, s.servers, a, s.nodes[a.node]);
        AckThenBallot(s.history, s'.history, s.servers, a, s.nodes[a.node], b);
      }
    }
  }

  lemma AckThenBallot(h: History, h': History, servers: set<Id>, a: Ack, node: NodeState, b: Ballot)
    requires AckOk(h, servers, a, node)
    requires Grows(h, h') && b in h'.grants && h'.grants[b].log == node.log.entries
    requires node.currentTerm < b.term || (node.currentTerm == b.term && b.term !in h.elections)
    ensures AckBeforeBallot(h', a, b)
  {
    forall k | 0 <= k <= a.length && Carried(h', a.term, k, b.term - 1)
      ensures Agree(h'.grants[b].log, h'.logs[a.term], k)
    {
      CarriedShrinks(h, h', a.term, k, b.term - 1, b.term - 1);
      assert Carried(h, a.term, k, node.currentTerm) by {
        forall t | t in h.elections && a.term < t <= node.currentTerm ensures Inherits(h, t, a.term, k) {
          assert t <= b.term - 1;
        }
      }
      AgreeExtends(node.log.entries, h.logs[a.term], h'.logs[a.term], k);
    }
  }

  lemma VoteCallStep(s: Cluster, m: Message)
    requires Inv(s) && Enabled(s, DeliverVoteCall(m))
    ensures Inv(After(s, DeliverVoteCall(m)))
  {
    hide NodesOk, ElectionsOk, GrantsOk, AcksOk, OutcomesOk, MessagesOk, NodeLogOk, PeersOk, VotesOk, LogOk;
    var s' := After(s, DeliverVoteCall(m));
    var n := m.to;
    InvNode(s, n);
    InvMessage(s, m);
    SameLogRetains(s, s', n);
    RequestVoteNode(s.history, s'.history, s.servers, n, s.nodes[n], m.vote);
    if HandleRequestVote(s.nodes[n], m.vote).1 {
      BallotOfCall(s, s', m);
    }
    QuietStepKeepsInv(s, s', n);
  }

  lemma RequestVoteNode(h: History, h': History, servers: set<Id>, n: Id, node: NodeState, r: VoteRequest)
    requires Grows(h, h') && NodeOk(h, servers, n, node) && h'.logs == h.logs
    ensures NodeOk(h', servers, n, HandleRequestVote(node, r).0)
  {
    hide NodeLogOk, VotesOk, HandleRequestVote;
    var node' := HandleRequestVote(node, r).0;
    RequestVoteShape(node, r);
    VotesOkGrows(h, h', servers, n, node.votes);
    NodeLogOkGrows(h, h', node, node');
    if node'.role == Leader {
      RevoteKeepsPeers(h, h', servers, n, node, node'.votedFor);
    }
  }

  lemma RequestVoteShape(node: NodeState, r: VoteRequest)
    ensures var node' := HandleRequestVote(node, r).0;
            && node' == node.(currentTerm := node'.currentTerm, votedFor := node'.votedFor, role := node'.role)
            && node'.currentTerm >= node.currentTerm
            && ((node'.role == node.role && node'.currentTerm == node.currentTerm) || node'.role == Follower)
  {
  }

  lemma RevoteKeepsPeers(h: History, h': History, servers: set<Id>, n: Id, node: NodeState, vote: Option<Id>)
    requires Grows(h, h') && PeersOk(h, servers, n, node) && h'.logs == h.logs
    ensures PeersOk(h', servers, n, node.(votedFor := vote))
  {
    PeersOkGrows(h, h', servers, n, node);
  }

  lemma BallotOfCall(s: Cluster, s': Cluster, m: Message)
    requires ElectionsOk(s) && GrantsOk(s) && AcksOk(s) && MessageOk(s, m)
    requires Enabled(s, DeliverVoteCall(m)) && s' == After(s, DeliverVoteCall(m))
    requires NodeOk(s.history, s.servers, m.to, s.nodes[m.to])
    requires HandleRequestVote(s.nodes[m.to], m.vote).1
    ensures Granted(s'.history, m.to, m.vote.term, m.vote.candidate)
    ensures forall b | b in s'.history.grants && b !in s.history.grants ::
              GrantOk(s', b) && forall a | a in s.history.acks :: AckBeforeBallot(s'.history, a, b)
  {
    var b := Ballot(m.to, m.vote.term);
    if b in s.history.grants {
      assert GrantOk(s, b);
    } else {
      NewBallotOk(s, s', m, b);
      NewBallotUndecided(s, s', b);
    }
  }

  /** A first ballot either precedes the election of its term or did not count for it. */
  lemma NewBallotUndecided(s: Cluster, s': Cluster, b: Ballot)
    requires ElectionsOk(s) && AcksOk(s)
    requires b !in s.history.grants && b.voter in s.nodes && s.nodes[b.voter].currentTerm <= b.term
    requires Grows(s.history, s'.history) && s'.history.elections == s.history.elections
    requires b in s'.history.grants && s'.history.grants[b].log == s.nodes[b.voter].log.entries
    ensures forall a | a in s.history.acks :: AckBeforeBallot(s'.history, a, b)
  {
    if b.term in s.history.elections {
      assert ElectionOk(s.history, s.servers, b.term);
      var e := s.history.elections[b.term];
      assert b.voter in e.quorum ==> Granted(s.history, b.voter, b.term, e.leader);
    } else {
      AcksThenBallot(s, s', b);
    }
  }

  lemma NewBallotOk(s: Cluster, s': Cluster, m: Message, b: Ballot)
    requires MessageOk(s, m) && Enabled(s, DeliverVoteCall(m)) && s' == After(s, DeliverVoteCall(m))
    requires NodeOk(s.history, s.servers, m.to, s.nodes[m.to])
    requires HandleRequestVote(s.nodes[m.to], m.vote).1
    requires b == Ballot(m.to, m.vote.term) && b !in s.history.grants
    ensures b in s'.history.grants && GrantOk(s', b)
  {
    hide PeersOk, VotesOk, CommittedPrefix, LogOk;
    LogOkGrows(s.history, s'.history, s.nodes[m.to].log.entries);
  }

  /** Election safety, at the moment it matters: when a candidate has a majority of the ballots of
      its term, nobody has led that term before. */
  lemma MajorityIsFirst(s: Cluster, n: Id, quorum: set<Id>)
    requires ElectionsOk(s) && n in s.nodes && s.nodes[n].role == Candidate
    requires Majority(s.servers, quorum)
    requires BallotsOk(s.history, s.servers, n, s.nodes[n].currentTerm, quorum)
    ensures s.nodes[n].currentTerm !in s.history.elections
    ensures s.nodes[n].currentTerm !in s.history.logs
  {
    var h, t := s.history, s.nodes[n].currentTerm;
    if t in h.elections {
      assert ElectionOk(h, s.servers, t) && TermLeaderOk(s, t);
      var v := MajoritiesMeet(s.servers, quorum, h.elections[t].quorum);
      assert false;
    }
  }

  lemma VoteReplyStep(s: Cluster, m: Message)
    requires Inv(s) && Enabled(s, DeliverVoteReply(m)) && RepliesInTerm(s, DeliverVoteReply(m))
    ensures Inv(After(s, DeliverVoteReply(m)))
  {
    hide NodesOk, ElectionsOk, GrantsOk, AcksOk, OutcomesOk, MessagesOk, NodeLogOk, PeersOk, VotesOk, LogOk;
    var s' := After(s, DeliverVoteReply(m));
    var n := m.to;
    var node, node' := s.nodes[n], s'.nodes[n];
    InvNode(s, n);
    InvMessage(s, m);
    if node.role == Candidate && node'.role == Leader {
      BecomeLeaderStep(s, m);
    } else {
      if node.role == Candidate {
        CountedVotes(s.history, s.servers, n, node, s.ConfigOf(n), m.from, m.requestTerm, m.replyTerm, m.granted);
        SameLogNode(s.history, s.history, s.servers, n, node, node');
      }
      QuietMove(s, n, node', {});
    }
  }

  lemma CountedVotes(h: History, servers: set<Id>, n: Id, node: NodeState, c: Config,
                     from: Id, requestTerm: nat, replyTerm: nat, granted: bool)
    requires VotesOk(h, servers, n, node.votes)
    requires granted ==> from in servers && Granted(h, from, requestTerm, n)
    ensures VotesOk(h, servers, n, OnVoteReply(node, c, from, requestTerm, replyTerm, granted).votes)
  {
    hide Fill;
    var node' := OnVoteReply(node, c, from, requestTerm, replyTerm, granted);
    if node'.votes != node.votes {
      if requestTerm in node.votes {
        assert BallotsOk(h, servers, n, requestTerm, node.votes[requestTerm]);
      }
      assert node'.votes == node.votes[requestTerm := node'.votes[requestTerm]];
      VotesOkAdd(h, servers, n, node.votes, requestTerm, node'.votes[requestTerm]);
    }
  }

  /** The votes that make a candidate the leader: a majority's ballots of the candidate's own term,
      which nobody has led before. */
  lemma WinningVotes(s: Cluster, m: Message)
    requires Inv(s) && Enabled(s, DeliverVoteReply(m)) && RepliesInTerm(s, DeliverVoteReply(m))
    requires s.nodes[m.to].role == Candidate && After(s, DeliverVoteReply(m)).nodes[m.to].role == Leader
    ensures var node, node' := s.nodes[m.to], After(s, DeliverVoteReply(m)).nodes[m.to];
            && m.requestTerm == node.currentTerm && m.requestTerm in node'.votes
            && node' == BecomeLeader(node.(votes := node'.votes), s.ConfigOf(m.to))
            && VotesOk(s.history, s.servers, m.to, node'.votes)
            && BallotsOk(s.history, s.servers, m.to, m.requestTerm, node'.votes[m.requestTerm])
            && Majority(s.servers, node'.votes[m.requestTerm])
            && node.currentTerm !in s.history.elections && node.currentTerm !in s.history.logs
  {
    hide NodesOk, ElectionsOk, GrantsOk, AcksOk, OutcomesOk, MessagesOk, NodeLogOk, PeersOk, VotesOk, LogOk;
    var n := m.to;
    var node, node' := s.nodes[n], After(s, DeliverVoteReply(m)).nodes[n];
    InvNode(s, n);
    InvMessage(s, m);
    assert {n} + (s.servers - {n}) == s.servers;
    CountedVotes(s.history, s.servers, n, node, s.ConfigOf(n), m.from, m.requestTerm, m.replyTerm, m.granted);
    CountedBallots(s.history, s.servers, n, node'.votes, m.requestTerm);
    MajorityIsFirst(s, n, node'.votes[m.requestTerm]);
  }

  lemma CountedBallots(h: History, servers: set<Id>, n: Id, votes: map<nat, set<Id>>, t: nat)
    requires VotesOk(h, servers, n, votes) && t in votes
    ensures BallotsOk(h, servers, n, t, votes[t])
  {
  }

  lemma BecomeLeaderStep(s: Cluster, m: Message)
    requires Inv(s) && Enabled(s, DeliverVoteReply(m)) && RepliesInTerm(s, DeliverVoteReply(m))
    requires s.nodes[m.to].role == Candidate && After(s, DeliverVoteReply(m)).nodes[m.to].role == Leader
    ensures Inv(After(s, DeliverVoteReply(m)))
  {
    hide NodesOk, ElectionsOk, GrantsOk, AcksOk, OutcomesOk, MessagesOk, NodeLogOk, PeersOk, VotesOk, LogOk,
      OnVoteReply, MessageOk, BallotsOk;
    var s' := After(s, DeliverVoteReply(m));
    var n := m.to;
    var node, node' := s.nodes[n], s'.nodes[n];
    InvNode(s, n);
    WinningVotes(s, m);
    NewTerm(s, s', n, node'.votes[m.requestTerm]);
    NewLeaderNode(s.history, s'.history, s.servers, n, node, node', s.ConfigOf(n));
    LeaderTakesOver(s, s', n);
  }

  /** The frame of the step in which a candidate becomes the leader of a new term. */
  lemma LeaderTakesOver(s: Cluster, s': Cluster, n: Id)
    requires Inv(s) && Moves(s, s', n)
    requires var t, log := s.nodes[n].currentTerm, s.nodes[n].log.entries;
             && t !in s.history.elections
             && t !in s.history.logs
             && s'.history.elections.Keys == s.history.elections.Keys + {t}
             && s'.history.elections[t].leader == n
             && s'.history.logs == s.history.logs[t := log]
             && s'.history.acks == s.history.acks + {Ack(n, t, |log|)}
             && s'.history.leaderships == s.history.leaderships + {(n, t)}
             && s'.history.grants == s.history.grants
             && s'.history.commits == s.history.commits && s'.history.applied == s.history.applied
             && s'.sent == s.sent
             && s'.nodes[n].currentTerm == t && s'.nodes[n].role == Leader && s'.nodes[n].log == s.nodes[n].log
             && ElectionOk(s'.history, s.servers, t) && TermLogOk(s'.history, t)
             && NodeOk(s'.history, s.servers, n, s'.nodes[n])
    ensures Inv(s')
  {
    hide NodesOk, ElectionsOk, GrantsOk, AcksOk, OutcomesOk, MessagesOk, NodeLogOk, PeersOk, VotesOk, LogOk;
    SameLogRetains(s, s', n);
    LeadersOwnAck(s, s', n, Ack(n, s.nodes[n].currentTerm, |s.nodes[n].log.entries|));
    NodesFrame(s, s', n);
    ElectionsFrame(s, s', n);
    GrantsFrame(s, s', n);
    AcksFrame(s, s', n);
    OutcomesFrame(s, s', n);
    MessagesFrame(s, s', n);
  }

  lemma NewTerm(s: Cluster, s': Cluster, n: Id, quorum: set<Id>)
    requires GrantsOk(s) && n in s.nodes && Pending(s, n, s.nodes[n].currentTerm)
    requires NodeOk(s.history, s.servers, n, s.nodes[n])
    requires s.nodes[n].currentTerm !in s.history.logs
    requires Majority(s.servers, quorum)
    requires BallotsOk(s.history, s.servers, n, s.nodes[n].currentTerm, quorum)
    requires s'.history == RecordElection(s.history, n, s.nodes[n].currentTerm, quorum, s.nodes[n].log.entries)
    requires n in s.servers
    ensures Grows(s.history, s'.history)
    ensures ElectionOk(s'.history, s.servers, s.nodes[n].currentTerm)
    ensures TermLogOk(s'.history, s.nodes[n].currentTerm)
  {
    var h, h', t, log := s.history, s'.history, s.nodes[n].currentTerm, s.nodes[n].log.entries;
    LogOkGrows(h, h', log);
    forall i | 0 <= i < |log| ensures log[i].term < t {
      assert EntryOk(h, log, i);
    }
    forall v | v in quorum ensures Granted(h', v, t, n) && AtLeastAsFresh(log, h'.grants[Ballot(v, t)].log) {
      assert Granted(h, v, t, n) && GrantOk(s, Ballot(v, t));
    }
  }

  lemma NewLeaderNode(h: History, h': History, servers: set<Id>, n: Id, node: NodeState, node': NodeState, c: Config)
    requires NodeOk(h, servers, n, node) && Grows(h, h')
    requires c.peers == servers - {n}
    requires node' == BecomeLeader(node.(votes := node'.votes), c)
    requires VotesOk(h, servers, n, node'.votes)
    requires var t := node.currentTerm;
             && t in h'.elections && h'.elections[t].leader == n
             && t in h'.logs && h'.logs[t] == node.log.entries
             && Ack(n, t, |node.log.entries|) in h'.acks
    ensures NodeOk(h', servers, n, node')
  {
    NodeLogOkGrows(h, h', node, node');
    VotesOkGrows(h, h', servers, n, node'.votes);
    hide Fill;
    FillValues(node.nextIndex, c.peers, node.log.Length() + 1);
    FillValues(node.matchIndex, c.peers, 0);
    assert node'.matchIndex.Keys == servers - {n} && node'.nextIndex.Keys == servers - {n};
  }

  /** A node that leads a term holds that term's log; nobody voted in a later term before. */
  lemma LeadersOwnAck(s: Cluster, s': Cluster, n: Id, a: Ack)
    requires GrantsOk(s) && n in s.servers && n in s.nodes && n in s'.nodes && s'.history.grants == s.history.grants
    requires a.node == n && a.term == s.nodes[n].currentTerm == s'.nodes[n].currentTerm
    requires a.term in s'.history.logs
    requires s'.history.logs[a.term] == s'.nodes[n].log.entries && a.length == |s'.nodes[n].log.entries|
    ensures AckOk(s'.history, s.servers, a, s'.nodes[n])
    ensures forall b | b in s'.history.grants :: AckBeforeBallot(s'.history, a, b)
  {
    forall b | b in s'.history.grants ensures AckBeforeBallot(s'.history, a, b) {
      assert GrantOk(s, b);
    }
  }

  // ----- Replication by the leader -----

  lemma SubmitStep(s: Cluster, n: Id, command: Command)
    requires Inv(s) && Enabled(s, Submit(n, command))
    ensures Inv(After(s, Submit(n, command)))
  {
    hide NodesOk, ElectionsOk, GrantsOk, AcksOk, OutcomesOk, MessagesOk, NodeLogOk, PeersOk, VotesOk, LogOk;
    var s' := After(s, Submit(n, command));
    var node, node' := s.nodes[n], s'.nodes[n];
    InvNode(s, n);
    SameLogRetains(s, s', n);
    if node.role != Leader {
      assert s'.nodes == s.nodes;
      QuietStepKeepsInv(s, s', n);
    } else {
      var t := node.currentTerm;
      InvLeader(s, n);
      SubmitNode(s.history, s'.history, s.servers, n, node, command);
      LeadersOwnAck(s, s', n, Ack(n, t, |node'.log.entries|));
      NodesFrame(s, s', n);
      ElectionsFrame(s, s', n);
      GrantsFrame(s, s', n);
      AcksFrame(s, s', n);
      OutcomesFrame(s, s', n);
      MessagesFrame(s, s', n);
    }
  }

  lemma SubmitNode(h: History, h': History, servers: set<Id>, n: Id, node: NodeState, command: Command)
    requires NodeOk(h, servers, n, node) && node.role == Leader && TermLogOk(h, node.currentTerm)
    requires var node' := SubmitCommand(node, command);
             h' == h.(logs := h.logs[node.currentTerm := node'.log.entries],
                      acks := h.acks + {Ack(n, node.currentTerm, |node'.log.entries|)})
    ensures Grows(h, h')
    ensures NodeOk(h', servers, n, SubmitCommand(node, command))
    ensures TermLogOk(h', node.currentTerm)
  {
    var node', t := SubmitCommand(node, command), node.currentTerm;
    var log, log' := node.log.entries, node'.log.entries;
    assert Grows(h, h');
    LogOkGrows(h, h', log);
    forall i | 0 <= i < |log'| ensures EntryOk(h', log', i) {
      if i < |log| {
        assert EntryOk(h', log, i);
        assert log'[..i + 1] == log[..i + 1];
      }
    }
    CommittedPrefixGrows(h, h', log, node.commitIndex, t, t);
    assert log'[..node.commitIndex] == log[..node.commitIndex];
    CommittedPrefixCopies(h', log, log', node.commitIndex, t);
    assert log'[..node.lastApplied] == log[..node.lastApplied];
    VotesOkGrows(h, h', servers, n, node.votes);
  }

  lemma SendAppendStep(s: Cluster, n: Id, peer: Id)
    requires Inv(s) && Enabled(s, SendAppend(n, peer))
    ensures Inv(After(s, SendAppend(n, peer)))
  {
    hide NodesOk, ElectionsOk, GrantsOk, AcksOk, OutcomesOk, MessagesOk, NodeLogOk, PeersOk, VotesOk, LogOk;
    InvNode(s, n);
    SentAppendOk(s, After(s, SendAppend(n, peer)), n, peer);
    QuietMove(s, n, s.nodes[n], After(s, SendAppend(n, peer)).sent - s.sent);
    assert After(s, SendAppend(n, peer)).sent == s.sent + (After(s, SendAppend(n, peer)).sent - s.sent);
  }

  /** The leader ships its whole suffix, so its commit index never exceeds what it ships. */
  lemma SentAppendOk(s: Cluster, s': Cluster, n: Id, peer: Id)
    requires Enabled(s, SendAppend(n, peer)) && s' == After(s, SendAppend(n, peer))
    requires NodeOk(s.history, s.servers, n, s.nodes[n])
    ensures forall m | m in s'.sent && m !in s.sent :: MessageOk(s', m)
  {
    hide OnVoteReply, HandleAppendEntries, HandleRequestVote, Fill;
  }

  lemma CrashStep(s: Cluster, n: Id)
    requires Inv(s) && Enabled(s, Crash(n))
    ensures Inv(After(s, Crash(n)))
  {
    hide NodesOk, ElectionsOk, GrantsOk, AcksOk, OutcomesOk, MessagesOk, NodeLogOk, PeersOk, VotesOk, LogOk;
    InvNode(s, n);
    RestartedNode(s.history, s.servers, n, s.nodes[n]);
    QuietMove(s, n, Restart(s.nodes[n]), {});
  }

  lemma RestartedNode(h: History, servers: set<Id>, n: Id, node: NodeState)
    requires NodeOk(h, servers, n, node)
    ensures NodeOk(h, servers, n, Restart(node))
  {
  }

  lemma CallFailsStep(s: Cluster, n: Id, peer: Id)
    requires Inv(s) && Enabled(s, CallFails(n, peer))
    ensures Inv(After(s, CallFails(n, peer)))
  {
    hide NodesOk, ElectionsOk, GrantsOk, AcksOk, OutcomesOk, MessagesOk, NodeLogOk, PeersOk, VotesOk, LogOk;
    InvNode(s, n);
    FailedCallNode(s.history, s.servers, n, s.nodes[n], s.ConfigOf(n), peer, 0, 0, 0, 0);
    QuietMove(s, n, OnAppendReply(s.nodes[n], s.ConfigOf(n), peer, 0, 0, 0, false, 0), {});
  }

  /** A reply that reports failure, or a later term. */
  lemma FailedCallNode(h: History, servers: set<Id>, n: Id, node: NodeState, c: Config,
                       peer: Id, prev: nat, count: nat, term: nat, k: nat)
    requires NodeOk(h, servers, n, node)
    ensures NodeOk(h, servers, n, OnAppendReply(node, c, peer, prev, count, term, false, k))
  {
    if term > node.currentTerm {
      SameLogNode(h, h, servers, n, node, UpdateTerm(node, term));
    }
  }
}
