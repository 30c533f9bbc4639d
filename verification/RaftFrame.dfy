/** What a step of one node leaves alone: every element of the invariant that the step does not
    create survives it. */
module RaftFrame {
  import opened Wrappers
  import opened RaftLogs
  import opened RaftNodes
  import opened RaftCluster
  import opened RaftInvariants

  /** History only grows; the logs of leaders only get longer. */
  ghost predicate Grows(h: History, h': History) {
    && (forall t | t in h.elections :: t in h'.elections && h'.elections[t] == h.elections[t])
    && (forall t | t in h.logs :: t in h'.logs && h.logs[t] <= h'.logs[t])
    && (forall b | b in h.grants :: b in h'.grants && h'.grants[b] == h.grants[b])
    && h.acks <= h'.acks
    && h.commits <= h'.commits
    && h.applied <= h'.applied
    && h.leaderships <= h'.leaderships
  }

  lemma AgreeExtends(a: seq<Entry>, b: seq<Entry>, b': seq<Entry>, n: nat)
    requires b <= b' && n <= |b|
    ensures Agree(a, b, n) == Agree(a, b', n)
  {
    assert b'[..n] == b[..n];
  }

  lemma LogOkGrows(h: History, h': History, log: seq<Entry>)
    requires Grows(h, h') && LogOk(h, log)
    ensures LogOk(h', log)
  {
    forall i | 0 <= i < |log| ensures EntryOk(h', log, i) {
      assert EntryOk(h, log, i);
      AgreeExtends(log, h.logs[log[i].term], h'.logs[log[i].term], i + 1);
    }
  }

  lemma CarriedShrinks(h: History, h': History, t0: nat, n: nat, until: int, until': int)
    requires Grows(h, h') && t0 in h.logs && n <= |h.logs[t0]| && until <= until'
    requires Carried(h', t0, n, until')
    ensures Carried(h, t0, n, until)
  {
    forall t | t in h.elections && t0 < t <= until ensures Inherits(h, t, t0, n) {
      assert Inherits(h', t, t0, n);
      AgreeExtends(h.elections[t].log, h.logs[t0], h'.logs[t0], n);
    }
  }

  lemma CommittedPrefixGrows(h: History, h': History, log: seq<Entry>, n: nat, term: nat, term': nat)
    requires Grows(h, h') && CommittedPrefix(h, log, n, term) && term <= term'
    ensures CommittedPrefix(h', log, n, term')
  {
    if n != 0 {
      var c :| c in h.commits && CoveredBy(h, log, n, term, c);
      AgreeExtends(log, h.logs[c.term], h'.logs[c.term], n);
      assert CoveredBy(h', log, n, term', c);
    }
  }

  lemma CommittedPrefixCopies(h: History, log: seq<Entry>, log': seq<Entry>, n: nat, term: nat)
    requires CommittedPrefix(h, log, n, term) && Agree(log', log, n)
    ensures CommittedPrefix(h, log', n, term)
  {
    if n != 0 {
      var c :| c in h.commits && CoveredBy(h, log, n, term, c);
      assert CoveredBy(h, log', n, term, c);
    }
  }

  lemma AckedToGrows(h: History, h': History, v: Id, t: nat, n: nat)
    requires Grows(h, h') && AckedTo(h, v, t, n)
    ensures AckedTo(h', v, t, n)
  {
    var a :| a in h.acks && a.node == v && a.term == t && n <= a.length;
    assert a in h'.acks;
  }

  /** A step of node `n`: nobody else's state changes, terms do not go back, a vote is not taken
      back within a term, and only the log of a term that `n` leads may get longer. */
  ghost predicate Moves(s: Cluster, s': Cluster, n: Id) {
    && n in s.nodes && n in s'.nodes && n in s.servers
    && s'.servers == s.servers
    && s'.snapshotInterval == s.snapshotInterval
    && s'.nodes == s.nodes[n := s'.nodes[n]]
    && Grows(s.history, s'.history)
    && s'.nodes[n].currentTerm >= s.nodes[n].currentTerm
    && (s'.nodes[n].currentTerm == s.nodes[n].currentTerm ==>
          && (s.nodes[n].votedFor == None || s'.nodes[n].votedFor == s.nodes[n].votedFor)
          && (s'.nodes[n].role == Candidate ==> s.nodes[n].role == Candidate))
    && (forall t | t in s.history.logs && s'.history.logs[t] != s.history.logs[t] ::
          t in s.history.elections && s.history.elections[t].leader == n)
  }

  /** The three conditions on a node's own change that make a `Move` a step in the sense of `Moves`. */
  ghost predicate Progresses(node: NodeState, node': NodeState) {
    && node'.currentTerm >= node.currentTerm
    && (node'.currentTerm == node.currentTerm ==>
          && (node.votedFor == None || node'.votedFor == node.votedFor)
          && (node'.role == Candidate ==> node.role == Candidate))
  }

  lemma MoveMoves(s: Cluster, n: Id, node': NodeState, out: set<Message>, h': History)
    requires n in s.nodes && n in s.servers && Progresses(s.nodes[n], node')
    requires Grows(s.history, h') && h'.logs == s.history.logs
    ensures Moves(s, Move(s, n, node', out, h'), n)
  {
  }

  /** While its election is undecided, a candidate's log does not change. */
  ghost predicate CandidateKeepsLog(s: Cluster, s': Cluster, n: Id)
    requires n in s.nodes && n in s'.nodes
  {
    Pending(s', n, s.nodes[n].currentTerm) ==> s'.nodes[n].log.entries == s.nodes[n].log.entries
  }

  /** What `n` acknowledged and later leaders carry stays in its log. */
  ghost predicate KeepsAcknowledged(s: Cluster, s': Cluster, n: Id)
    requires n in s.nodes && n in s'.nodes
  {
    forall a, k | a in s.history.acks && a.node == n && 0 <= k <= a.length ::
      Retains(s'.history, a, k, s.nodes[n].log.entries, s'.nodes[n].log.entries, s'.nodes[n].currentTerm)
  }

  ghost predicate Retains(h: History, a: Ack, k: nat, log: seq<Entry>, log': seq<Entry>, term: nat) {
    a.term in h.logs && Agree(log, h.logs[a.term], k) && Carried(h, a.term, k, term) ==> Agree(log', h.logs[a.term], k)
  }

  lemma LeaderOkGrows(h: History, h': History, servers: set<Id>, n: Id, s: NodeState)
    requires Grows(h, h') && LeaderOk(h, servers, n, s)
    requires h'.logs[s.currentTerm] == h.logs[s.currentTerm]
    ensures LeaderOk(h', servers, n, s)
  {
  }

  lemma VotesOkGrows(h: History, h': History, servers: set<Id>, n: Id, votes: map<nat, set<Id>>)
    requires Grows(h, h') && VotesOk(h, servers, n, votes)
    ensures VotesOk(h', servers, n, votes)
  {
    forall t | t in votes ensures BallotsOk(h', servers, n, t, votes[t]) {
      assert BallotsOk(h, servers, n, t, votes[t]);
    }
  }

  lemma NodeLogOkGrows(h: History, h': History, s: NodeState, s': NodeState)
    requires Grows(h, h') && NodeLogOk(h, s)
    requires s'.log.entries == s.log.entries && s'.commitIndex == s.commitIndex && s'.currentTerm >= s.currentTerm
    ensures NodeLogOk(h', s')
  {
    LogOkGrows(h, h', s.log.entries);
    CommittedPrefixGrows(h, h', s.log.entries, s.commitIndex, s.currentTerm, s'.currentTerm);
  }

  lemma PeersOkGrows(h: History, h': History, servers: set<Id>, n: Id, s: NodeState)
    requires Grows(h, h') && PeersOk(h, servers, n, s)
    requires s.role == Leader ==> h'.logs[s.currentTerm] == h.logs[s.currentTerm]
    ensures PeersOk(h', servers, n, s)
  {
    if s.role == Leader {
      LeaderOkGrows(h, h', servers, n, s);
    }
  }

  lemma NodeOkGrows(h: History, h': History, servers: set<Id>, n: Id, s: NodeState)
    requires Grows(h, h') && NodeOk(h, servers, n, s)
    requires s.role == Leader ==> h'.logs[s.currentTerm] == h.logs[s.currentTerm]
    ensures NodeOk(h', servers, n, s)
  {
    NodeLogOkGrows(h, h', s, s);
    PeersOkGrows(h, h', servers, n, s);
    VotesOkGrows(h, h', servers, n, s.votes);
  }

  lemma NodesFrame(s: Cluster, s': Cluster, n: Id)
    requires NodesOk(s) && Moves(s, s', n)
    requires NodeOk(s'.history, s.servers, n, s'.nodes[n])
    ensures NodesOk(s')
  {
    forall p | p in s'.nodes ensures NodeOk(s'.history, s'.servers, p, s'.nodes[p]) {
      if p != n {
        assert NodeOk(s.history, s.servers, p, s.nodes[p]);
        NodeOkGrows(s.history, s'.history, s.servers, p, s.nodes[p]);
      }
    }
  }

  lemma ElectionOkGrows(h: History, h': History, servers: set<Id>, t: nat)
    requires Grows(h, h') && t in h.elections && ElectionOk(h, servers, t)
    ensures ElectionOk(h', servers, t)
  {
    LogOkGrows(h, h', h.elections[t].log);
  }

  lemma TermLogOkGrows(h: History, h': History, t: nat)
    requires Grows(h, h') && t in h.logs && TermLogOk(h, t)
    requires h'.logs[t] == h.logs[t]
    ensures TermLogOk(h', t)
  {
    LogOkGrows(h, h', h.logs[t]);
  }

  lemma TermLeaderKept(s: Cluster, s': Cluster, n: Id, t: nat)
    requires Moves(s, s', n)
    requires t in s.history.elections && TermLeaderOk(s, t)
    ensures TermLeaderOk(s', t)
  {
  }

  lemma ElectionsFrame(s: Cluster, s': Cluster, n: Id)
    requires ElectionsOk(s) && Moves(s, s', n)
    requires forall t | t in s'.history.elections && t !in s.history.elections ::
               t in s'.history.logs && ElectionOk(s'.history, s.servers, t) && TermLeaderOk(s', t)
    requires forall t | t in s'.history.logs ::
               (t in s.history.logs && s'.history.logs[t] == s.history.logs[t]) || TermLogOk(s'.history, t)
    ensures ElectionsOk(s')
  {
    var h, h' := s.history, s'.history;
    forall t | t in h'.elections ensures t in h'.logs && ElectionOk(h', s'.servers, t) && TermLeaderOk(s', t) {
      if t in h.elections {
        assert t in h.logs;
        TermLeaderKept(s, s', n, t);
        ElectionOkGrows(h, h', s.servers, t);
      }
    }
    forall t | t in h'.logs ensures TermLogOk(h', t) {
      if t in h.logs && h'.logs[t] == h.logs[t] {
        TermLogOkGrows(h, h', t);
      }
    }
  }

  lemma GrantKept(s: Cluster, s': Cluster, n: Id, b: Ballot)
    requires Moves(s, s', n) && CandidateKeepsLog(s, s', n)
    requires b in s.history.grants && GrantOk(s, b)
    ensures GrantOk(s', b)
  {
    LogOkGrows(s.history, s'.history, s.history.grants[b].log);
  }

  lemma GrantsFrame(s: Cluster, s': Cluster, n: Id)
    requires GrantsOk(s) && Moves(s, s', n) && CandidateKeepsLog(s, s', n)
    requires forall b | b in s'.history.grants && b !in s.history.grants :: GrantOk(s', b)
    ensures GrantsOk(s')
  {
    forall b | b in s'.history.grants ensures GrantOk(s', b) {
      if b in s.history.grants {
        GrantKept(s, s', n, b);
      }
    }
  }

  lemma AckOkKept(s: Cluster, s': Cluster, n: Id, a: Ack)
    requires Moves(s, s', n) && KeepsAcknowledged(s, s', n)
    requires a in s.history.acks && a.node in s.nodes && AckOk(s.history, s.servers, a, s.nodes[a.node])
    ensures a.node in s'.nodes && AckOk(s'.history, s'.servers, a, s'.nodes[a.node])
  {
    var h, h' := s.history, s'.history;
    var node, node' := s.nodes[a.node], s'.nodes[a.node];
    forall k | 0 <= k <= a.length && Carried(h', a.term, k, node'.currentTerm)
      ensures Agree(node'.log.entries, h'.logs[a.term], k)
    {
      CarriedShrinks(h, h', a.term, k, node.currentTerm, node'.currentTerm);
      AgreeExtends(node.log.entries, h.logs[a.term], h'.logs[a.term], k);
      if a.node == n {
        assert Retains(h', a, k, node.log.entries, node'.log.entries, node'.currentTerm);
      }
    }
  }

  lemma AckBeforeBallotGrows(h: History, h': History, a: Ack, b: Ballot)
    requires Grows(h, h') && b in h.grants && AckBeforeBallot(h, a, b)
    requires a.term in h.logs && a.length <= |h.logs[a.term]|
    ensures AckBeforeBallot(h', a, b)
  {
    if a.node == b.voter && a.term < b.term && (b.term in h'.elections ==> b.voter in h'.elections[b.term].quorum) {
      forall k | 0 <= k <= a.length && Carried(h', a.term, k, b.term - 1)
        ensures Agree(h'.grants[b].log, h'.logs[a.term], k)
      {
        CarriedShrinks(h, h', a.term, k, b.term - 1, b.term - 1);
        AgreeExtends(h.grants[b].log, h.logs[a.term], h'.logs[a.term], k);
      }
    }
  }

  lemma AcksFrame(s: Cluster, s': Cluster, n: Id)
    requires AcksOk(s) && Moves(s, s', n) && KeepsAcknowledged(s, s', n)
    requires forall a | a in s'.history.acks && a !in s.history.acks ::
               a.node in s'.nodes && AckOk(s'.history, s.servers, a, s'.nodes[a.node])
    requires forall a, b | a in s'.history.acks && b in s'.history.grants ::
               (a in s.history.acks && b in s.history.grants) || AckBeforeBallot(s'.history, a, b)
    ensures AcksOk(s')
  {
    forall a | a in s'.history.acks
      ensures a.node in s'.nodes && AckOk(s'.history, s'.servers, a, s'.nodes[a.node])
    {
      if a in s.history.acks {
        AckOkKept(s, s', n, a);
      }
    }
    forall a, b | a in s'.history.acks && b in s'.history.grants ensures AckBeforeBallot(s'.history, a, b) {
      if a in s.history.acks && b in s.history.grants {
        assert AckOk(s.history, s.servers, a, s.nodes[a.node]);
        AckBeforeBallotGrows(s.history, s'.history, a, b);
      }
    }
  }

  lemma CommitOkGrows(h: History, h': History, servers: set<Id>, c: Commit)
    requires Grows(h, h') && CommitOk(h, servers, c)
    ensures CommitOk(h', servers, c)
  {
    forall v | v in c.quorum ensures AckedTo(h', v, c.term, c.index) {
      AckedToGrows(h, h', v, c.term, c.index);
    }
  }

  lemma ApplicationOkGrows(h: History, h': History, a: Application)
    requires Grows(h, h') && ApplicationOk(h, a)
    ensures ApplicationOk(h', a)
  {
    var c :| c in h.commits && a.index <= c.index && c.term in h.logs && a.index <= |h.logs[c.term]|
        && h.logs[c.term][a.index - 1] == a.entry;
    assert c in h'.commits;
  }

  lemma OutcomesFrame(s: Cluster, s': Cluster, n: Id)
    requires OutcomesOk(s) && Moves(s, s', n)
    requires forall c | c in s'.history.commits && c !in s.history.commits :: CommitOk(s'.history, s.servers, c)
    requires forall a | a in s'.history.applied && a !in s.history.applied :: ApplicationOk(s'.history, a)
    requires forall p, t | (p, t) in s'.history.leaderships && (p, t) !in s.history.leaderships ::
        LeadershipOk(s'.history, p, t)
    ensures OutcomesOk(s')
  {
    var h, h' := s.history, s'.history;
    forall c | c in h'.commits ensures CommitOk(h', s'.servers, c) {
      if c in h.commits {
        CommitOkGrows(h, h', s.servers, c);
      }
    }
    forall a | a in h'.applied ensures ApplicationOk(h', a) {
      if a in h.applied {
        ApplicationOkGrows(h, h', a);
      }
    }
    forall p, t | (p, t) in h'.leaderships ensures LeadershipOk(h', p, t) {
      if (p, t) in h.leaderships {
        assert LeadershipOk(h, p, t);
      }
    }
  }

  lemma AppendCallKept(s: Cluster, s': Cluster, m: Message)
    requires Grows(s.history, s'.history)
    requires m.AppendCall? && MessageOk(s, m)
    ensures MessageOk(s', m)
  {
    var h, h', r := s.history, s'.history, m.append;
    assert h'.logs[r.term][..|h.logs[r.term]|] == h.logs[r.term];
    assert h'.logs[r.term][r.prevIndex..r.prevIndex + |r.entries|]
        == h.logs[r.term][r.prevIndex..r.prevIndex + |r.entries|];
    CommittedPrefixGrows(h, h', h.logs[r.term], r.leaderCommit, r.term, r.term);
    AgreeExtends(h.logs[r.term], h.logs[r.term], h'.logs[r.term], r.leaderCommit);
    CommittedPrefixCopies(h', h.logs[r.term], h'.logs[r.term], r.leaderCommit, r.term);
  }

  lemma MessageKept(s: Cluster, s': Cluster, n: Id, m: Message)
    requires Moves(s, s', n) && CandidateKeepsLog(s, s', n)
    requires MessageOk(s, m)
    ensures MessageOk(s', m)
  {
    if m.AppendCall? {
      AppendCallKept(s, s', m);
    }
  }

  lemma MessagesFrame(s: Cluster, s': Cluster, n: Id)
    requires MessagesOk(s) && Moves(s, s', n) && CandidateKeepsLog(s, s', n)
    requires forall m | m in s'.sent && m !in s.sent :: MessageOk(s', m)
    ensures MessagesOk(s')
  {
    forall m | m in s'.sent ensures MessageOk(s', m) {
      if m in s.sent {
        MessageKept(s, s', n, m);
      }
    }
  }

  /** A step that adds nothing to the history but perhaps ballots and messages. */
  lemma QuietStepKeepsInv(s: Cluster, s': Cluster, n: Id)
    requires Inv(s) && Moves(s, s', n) && CandidateKeepsLog(s, s', n) && KeepsAcknowledged(s, s', n)
    requires s'.history == s.history.(grants := s'.history.grants)
    requires NodeOk(s'.history, s.servers, n, s'.nodes[n])
    requires forall b | b in s'.history.grants && b !in s.history.grants ::
               GrantOk(s', b) && forall a | a in s.history.acks :: AckBeforeBallot(s'.history, a, b)
    requires forall m | m in s'.sent && m !in s.sent :: MessageOk(s', m)
    ensures Inv(s')
  {
    NodesFrame(s, s', n);
    ElectionsFrame(s, s', n);
    GrantsFrame(s, s', n);
    AcksFrame(s, s', n);
    OutcomesFrame(s, s', n);
    MessagesFrame(s, s', n);
  }
}
