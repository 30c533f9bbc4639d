/** The steps that move entries from leader to follower and commit them keep the invariant. */
module RaftReplication {
  import opened Wrappers
  import opened RaftLogs
  import opened RaftNodes
  import opened RaftCluster
  import opened RaftInvariants
  import opened RaftFrame
  import opened RaftCompleteness
  import opened RaftSteps

  // ----- Applying without compacting -----

  lemma SnapshotOnlyAdvances(s: NodeState, interval: nat)
    requires s.log.lastIncludedIndex <= s.lastApplied && s.commitIndex <= s.log.Length()
    ensures ApplyCommitted(s, interval).log.lastIncludedIndex >= s.log.lastIncludedIndex
    decreases s.commitIndex - s.lastApplied
  {
    if s.lastApplied < s.commitIndex {
      SnapshotOnlyAdvances(CheckSnapshot(ApplyNext(s), interval), interval);
    }
  }

  /** If no snapshot is taken on the way, applying changes only the store and the applied index. */
  lemma ApplyWithoutSnapshot(s: NodeState, interval: nat)
    requires s.log.lastIncludedIndex == 0 && s.lastApplied <= s.commitIndex <= |s.log.entries|
    requires s.store == ApplyLog(s.log.entries[..s.lastApplied])
    requires ApplyCommitted(s, interval).log.lastIncludedIndex == 0
    ensures ApplyCommitted(s, interval)
         == s.(lastApplied := s.commitIndex, store := ApplyLog(s.log.entries[..s.commitIndex]))
    decreases s.commitIndex - s.lastApplied
  {
    if s.lastApplied < s.commitIndex {
      var s1 := ApplyNext(s);
      SnapshotOnlyAdvances(CheckSnapshot(s1, interval), interval);
      assert CheckSnapshot(s1, interval) == s1;
      var log := s.log.entries[..s1.lastApplied];
      assert log[..|log| - 1] == s.log.entries[..s.lastApplied];
      ApplyWithoutSnapshot(s1, interval);
    }
  }

  lemma ApplicationsOk(h: History, n: Id, from: nat, to: nat, log: seq<Entry>, commit: nat, term: nat)
    requires CommittedPrefix(h, log, commit, term) && to <= commit <= |log|
    ensures forall a | a in Applications(n, from, to, log) :: ApplicationOk(h, a)
  {
    if from < to {
      ApplicationsOk(h, n, from, to - 1, log, commit, term);
      var c :| c in h.commits && CoveredBy(h, log, commit, term, c);
      AgreeAt(log, h.logs[c.term], commit, to - 1);
      assert ApplicationOk(h, Application(n, to, log[to - 1]));
    }
  }

  // ----- Merging shipped entries -----

  /** Merging a slice of the leader's log, once the entry before it matches, leaves the log as it
      was or makes it the leader's log up to the end of the slice; in both cases it agrees with the
      leader's log that far, and nothing that agreed with the leader's log is lost. */
  lemma MergeFollowsLeader(h: History, log: LogState, leader: seq<Entry>, prev: nat, entries: seq<Entry>)
    requires log.lastIncludedIndex == 0
    requires LogOk(h, log.entries) && LogOk(h, leader)
    requires Agree(log.entries, leader, prev)
    requires prev + |entries| <= |leader| && entries == leader[prev..prev + |entries|]
    ensures var r := MergeEntries(log, prev, entries);
            && r.lastIncludedIndex == 0 && r.lastIncludedTerm == log.lastIncludedTerm
            && (r == log || r.entries == leader[..prev + |entries|])
            && Agree(r.entries, leader, prev + |entries|)
    decreases |entries|
  {
    if entries != [] {
      var e := entries[0];
      var log1 := MergeEntry(log, prev + 1, e);
      assert entries[1..] == leader[prev + 1..prev + 1 + |entries[1..]|];
      hide LogOk, MergeEntry, Agree;
      OneEntryFollowsLeader(h, log, leader, prev, e);
      MergeFollowsLeader(h, log1, leader, prev + 1, entries[1..]);
    }
  }

  lemma OneEntryFollowsLeader(h: History, log: LogState, leader: seq<Entry>, prev: nat, e: Entry)
    requires log.lastIncludedIndex == 0 && LogOk(h, log.entries) && LogOk(h, leader)
    requires Agree(log.entries, leader, prev) && prev < |leader| && leader[prev] == e
    ensures var r := MergeEntry(log, prev + 1, e);
            && r.lastIncludedIndex == 0 && r.lastIncludedTerm == log.lastIncludedTerm
            && (r == log || r.entries == leader[..prev + 1])
            && LogOk(h, r.entries) && Agree(r.entries, leader, prev + 1)
  {
    hide LogOk;
    if prev < |log.entries| && log.entries[prev].term == e.term {
      LogMatching(h, log.entries, leader, prev);
    } else {
      assert MergeEntry(log, prev + 1, e).entries == log.entries[..prev] + [e];
      assert log.entries[..prev] + [e] == leader[..prev + 1];
      LogOkPrefix(h, leader, prev + 1);
    }
  }

  lemma LogOkPrefix(h: History, log: seq<Entry>, n: nat)
    requires LogOk(h, log) && n <= |log|
    ensures LogOk(h, log[..n])
  {
    forall i | 0 <= i < n ensures EntryOk(h, log[..n], i) {
      assert EntryOk(h, log, i);
      assert log[..n][..i + 1] == log[..i + 1];
    }
  }

  /** What a log shares with the leader survives the merge. */
  lemma MergeKeepsShared(h: History, log: LogState, leader: seq<Entry>, prev: nat, entries: seq<Entry>, k: nat)
    requires log.lastIncludedIndex == 0
    requires LogOk(h, log.entries) && LogOk(h, leader)
    requires Agree(log.entries, leader, prev) && Agree(log.entries, leader, k)
    requires prev + |entries| <= |leader| && entries == leader[prev..prev + |entries|]
    ensures Agree(MergeEntries(log, prev, entries).entries, leader, k)
    decreases |entries|
  {
    if entries != [] {
      var e := entries[0];
      assert e == leader[prev];
      var log1 := MergeEntry(log, prev + 1, e);
      if prev < |log.entries| && log.entries[prev].term == e.term {
        assert log1 == log;
        LogMatching(h, log.entries, leader, prev);
      } else {
        assert log1.entries == log.entries[..prev] + [e] == leader[..prev + 1];
        LogOkPrefix(h, leader, prev + 1);
        if k > prev {
          AgreeAt(log.entries, leader, k, prev);
        }
        assert leader[..prev + 1][..k] == leader[..k];
      }
      assert entries[1..] == leader[prev + 1..prev + 1 + |entries[1..]|];
      MergeKeepsShared(h, log1, leader, prev + 1, entries[1..], k);
    }
  }

  /** A matching previous entry means that the logs agree up to it. */
  lemma MatchMeansAgreement(h: History, log: LogState, leader: seq<Entry>, prev: nat)
    requires log.lastIncludedIndex == 0
    requires LogOk(h, log.entries) && LogOk(h, leader)
    requires prev <= |leader| && log.Matches(prev, TermOf(leader, prev))
    ensures Agree(log.entries, leader, prev)
  {
    if prev > 0 {
      LogMatching(h, log.entries, leader, prev - 1);
    }
  }

  // ----- A follower takes entries -----

  /** The facts about an accepted AppendEntries that the rest of the step needs. */
  ghost predicate Accepts(s: Cluster, m: Message, log': LogState)
    requires m.AppendCall? && m.to in s.nodes
  {
    var h, r, log := s.history, m.append, s.nodes[m.to].log;
    && r.term in h.logs && r.term in h.elections
    && log' == MergeEntries(log, r.prevIndex, r.entries)
    && log'.lastIncludedIndex == 0 && log'.lastIncludedTerm == 0
    && LogOk(h, log'.entries)
    && LogOk(h, h.logs[r.term]) && TermsUpTo(h.logs[r.term], r.term)
    && (log' == log || log'.entries <= h.logs[r.term])
    && Agree(log'.entries, h.logs[r.term], r.prevIndex + |r.entries|)
    && forall k: nat :: Agree(log.entries, h.logs[r.term], k) ==> Agree(log'.entries, h.logs[r.term], k)
  }

  lemma TermLogTerms(h: History, servers: set<Id>, t: nat)
    requires t in h.logs && TermLogOk(h, t) && ElectionOk(h, servers, t)
    ensures TermsUpTo(h.logs[t], t)
  {
    var e := h.elections[t].log;
    forall i | 0 <= i < |h.logs[t]| ensures h.logs[t][i].term <= t {
      assert i < |e| ==> h.logs[t][i] == e[i];
    }
  }

  lemma InvTermLog(s: Cluster, t: nat)
    requires ElectionsOk(s) && t in s.history.elections
    ensures t in s.history.logs && LogOk(s.history, s.history.logs[t]) && TermsUpTo(s.history.logs[t], t)
  {
    assert TermLogOk(s.history, t) && ElectionOk(s.history, s.servers, t);
    TermLogTerms(s.history, s.servers, t);
  }

  lemma AcceptedEntries(s: Cluster, m: Message)
    requires ElectionsOk(s) && m.AppendCall? && MessageOk(s, m) && m.to in s.nodes
    requires NodeOk(s.history, s.servers, m.to, s.nodes[m.to])
    requires s.nodes[m.to].log.Matches(m.append.prevIndex, m.append.prevTerm)
    ensures Accepts(s, m, MergeEntries(s.nodes[m.to].log, m.append.prevIndex, m.append.entries))
    ensures m.append.leaderCommit <= |MergeEntries(s.nodes[m.to].log, m.append.prevIndex, m.append.entries).entries|
  {
    hide ElectionsOk, LogOk, TermsUpTo, MergeEntries, PeersOk, VotesOk, CommittedPrefix;
    var h, r := s.history, m.append;
    InvTermLog(s, r.term);
    MergeResult(h, s.nodes[m.to].log, h.logs[r.term], r.prevIndex, r.prevTerm, r.entries);
  }

  lemma MergeResult(h: History, log: LogState, leader: seq<Entry>, prev: nat, prevTerm: nat, entries: seq<Entry>)
    requires log.lastIncludedIndex == 0 && LogOk(h, log.entries) && LogOk(h, leader)
    requires prev + |entries| <= |leader| && entries == leader[prev..prev + |entries|]
    requires prevTerm == TermOf(leader, prev) && log.Matches(prev, prevTerm)
    ensures var r := MergeEntries(log, prev, entries);
            && r.lastIncludedIndex == 0 && r.lastIncludedTerm == log.lastIncludedTerm
            && (r == log || r.entries <= leader)
            && LogOk(h, r.entries)
            && Agree(r.entries, leader, prev + |entries|)
            && forall k: nat :: Agree(log.entries, leader, k) ==> Agree(r.entries, leader, k)
  {
    MatchMeansAgreement(h, log, leader, prev);
    MergeFollowsLeader(h, log, leader, prev, entries);
    LogOkPrefix(h, leader, prev + |entries|);
    forall k: nat | Agree(log.entries, leader, k) ensures Agree(MergeEntries(log, prev, entries).entries, leader, k) {
      MergeKeepsShared(h, log, leader, prev, entries, k);
    }
  }

  /** Nothing below the commit index is truncated: what is committed, the leader has. */
  lemma CommittedSurvives(s: Cluster, m: Message, log': LogState)
    requires Inv(s) && m.AppendCall? && m.to in s.servers && m.to in s.nodes && Accepts(s, m, log')
    requires s.nodes[m.to].currentTerm <= m.append.term
    ensures var node := s.nodes[m.to];
            CommittedPrefix(s.history, log'.entries, node.commitIndex, m.append.term)
            && Agree(log'.entries, node.log.entries, node.commitIndex)
  {
    hide NodesOk, ElectionsOk, GrantsOk, AcksOk, MessagesOk, LogOk;
    var h, r, node := s.history, m.append, s.nodes[m.to];
    var log, k := node.log.entries, node.commitIndex;
    InvNode(s, m.to);
    if k > 0 {
      var c :| c in h.commits && CoveredBy(h, log, k, node.currentTerm, c);
      LaterLogsHaveCommitted(s, c, r.term);
      AgreeShorter(h.logs[r.term], h.logs[c.term], c.index, k);
      assert Agree(log, h.logs[r.term], k);
      assert Agree(log'.entries, h.logs[r.term], k);
      assert Agree(log'.entries, log, k);
      CommittedPrefixGrows(h, h, log, k, node.currentTerm, r.term);
      CommittedPrefixCopies(h, log, log'.entries, k, r.term);
    }
  }

  /** What the node acknowledged and the leader carries survives too. */
  lemma AcknowledgedSurvives(s: Cluster, s': Cluster, m: Message, log': LogState)
    requires ElectionsOk(s) && m.AppendCall? && m.to in s.nodes && m.to in s'.nodes && Accepts(s, m, log')
    requires s'.nodes[m.to].log == log' && s'.nodes[m.to].currentTerm == m.append.term
    requires s'.history.elections == s.history.elections && s'.history.logs == s.history.logs
    requires forall a | a in s.history.acks && a.node == m.to :: a.term <= m.append.term
    ensures KeepsAcknowledged(s, s', m.to)
  {
    var h, h', r, log := s.history, s'.history, m.append, s.nodes[m.to].log.entries;
    InvTerms(s);
    forall a, k | a in h.acks && a.node == m.to && 0 <= k <= a.length
      ensures Retains(h', a, k, log, log'.entries, r.term)
    {
      if a.term in h.logs && Agree(log, h.logs[a.term], k) && Carried(h', a.term, k, r.term) {
        if a.term < r.term {
          assert Inherits(h', r.term, a.term, k) && TermOk(h, r.term);
          InheritedIsInLog(h, r.term, a.term, k);
        }
        assert Agree(h.logs[r.term], h.logs[a.term], k);
        assert Agree(log, h.logs[r.term], k);
        assert Agree(log'.entries, h.logs[r.term], k);
      }
    }
  }

  lemma AppendCallStep(s: Cluster, m: Message)
    requires Inv(s) && Enabled(s, DeliverAppendCall(m))
    requires NoCompaction(After(s, DeliverAppendCall(m)))
    ensures Inv(After(s, DeliverAppendCall(m)))
  {
    hide NodesOk, ElectionsOk, GrantsOk, AcksOk, OutcomesOk, MessagesOk, NodeLogOk, PeersOk, VotesOk, LogOk;
    var s' := After(s, DeliverAppendCall(m));
    var n, r := m.to, m.append;
    InvNode(s, n);
    if HandleAppendEntries(s.nodes[n], r, s.snapshotInterval).1 {
      AppendAccepted(s, m);
    } else {
      RefusedNode(s.history, s.servers, n, s.nodes[n], r, s.snapshotInterval);
      QuietMove(s, n, s'.nodes[n],
                {AppendReply(n, r.leader, r.term, r.prevIndex, |r.entries|, s'.nodes[n].currentTerm, false)});
    }
  }

  lemma RefusedNode(h: History, servers: set<Id>, n: Id, node: NodeState, r: AppendRequest, interval: nat)
    requires NodeOk(h, servers, n, node)
    requires !HandleAppendEntries(node, r, interval).1
    ensures var node' := HandleAppendEntries(node, r, interval).0;
            NodeOk(h, servers, n, node')
                && (node' == node || (node' == UpdateTerm(node, r.term) && r.term > node.currentTerm))
  {
    if HandleAppendEntries(node, r, interval).0 != node {
      SameLogNode(h, h, servers, n, node, UpdateTerm(node, r.term));
    }
  }

  /** `node'` is `node` in the request's term with its log replaced, having committed and applied
      what the leader shipped as committed. */
  ghost predicate FollowsUp(node: NodeState, node': NodeState, r: AppendRequest, log': LogState) {
    var node1 := if r.term > node.currentTerm then UpdateTerm(node, r.term) else node;
    var commit := if r.leaderCommit > node.commitIndex then r.leaderCommit else node.commitIndex;
    && node.currentTerm <= r.term
    && node.lastApplied <= node'.lastApplied <= commit <= |log'.entries|
    && node' == node1.(log := log', commitIndex := commit, lastApplied := node'.lastApplied,
                       store := ApplyLog(log'.entries[..node'.lastApplied]))
  }

  lemma AcceptedShape(node: NodeState, r: AppendRequest, interval: nat)
    requires StoreOk(node)
    requires HandleAppendEntries(node, r, interval).1
    requires HandleAppendEntries(node, r, interval).0.log.lastIncludedIndex == 0
    requires var log' := MergeEntries(node.log, r.prevIndex, r.entries);
             r.leaderCommit <= |log'.entries| && Agree(log'.entries, node.log.entries, node.commitIndex)
    ensures FollowsUp(node, HandleAppendEntries(node, r, interval).0, r, MergeEntries(node.log, r.prevIndex, r.entries))
  {
    var node1 := if r.term > node.currentTerm then UpdateTerm(node, r.term) else node;
    MergeKeepsSnapshot(node.log, r.prevIndex, r.entries);
    var log' := MergeEntries(node.log, r.prevIndex, r.entries);
    AgreeShorter(log'.entries, node.log.entries, node.commitIndex, node.lastApplied);
    if r.leaderCommit > node.commitIndex {
      ApplyWithoutSnapshot(node1.(log := log', commitIndex := r.leaderCommit), interval);
    }
  }

  /** What happens when a follower accepts an AppendEntries. */
  lemma Acceptance(s: Cluster, m: Message)
    requires Inv(s) && m.AppendCall? && m in s.sent && m.to in s.servers && m.to in s.nodes
    requires s.nodes[m.to].log.lastIncludedIndex <= s.nodes[m.to].lastApplied
    requires HandleAppendEntries(s.nodes[m.to], m.append, s.snapshotInterval).1
    requires HandleAppendEntries(s.nodes[m.to], m.append, s.snapshotInterval).0.log.lastIncludedIndex == 0
    ensures var node, r := s.nodes[m.to], m.append;
            var node' := HandleAppendEntries(node, r, s.snapshotInterval).0;
            && Accepts(s, m, node'.log)
            && FollowsUp(node, node', r, node'.log)
            && CommittedPrefix(s.history, node'.log.entries, node.commitIndex, r.term)
            && Agree(node'.log.entries, node.log.entries, node.commitIndex)
  {
    hide NodesOk, ElectionsOk, GrantsOk, AcksOk, OutcomesOk, MessagesOk, NodeLogOk, PeersOk, VotesOk, LogOk,
      HandleAppendEntries, MergeEntries, CommittedPrefix, Accepts;
    var node, r := s.nodes[m.to], m.append;
    InvNode(s, m.to);
    InvMessage(s, m);
    AcceptanceMatches(node, r, s.snapshotInterval);
    AcceptedEntries(s, m);
    CommittedSurvives(s, m, MergeEntries(node.log, r.prevIndex, r.entries));
    AcceptedShape(node, r, s.snapshotInterval);
  }

  /** What accepting an AppendEntries writes into the history and the network. */
  ghost predicate Recorded(s: Cluster, s': Cluster, m: Message)
    requires m.AppendCall? && m.to in s.nodes && m.to in s'.nodes
  {
    var r, h := m.append, s.history;
    && s'.history == RecordApplications(h.(acks := h.acks + {Ack(m.to, r.term, r.prevIndex + |r.entries|)}),
                                        m.to, s.nodes[m.to].lastApplied, s'.nodes[m.to].lastApplied,
                                        s'.nodes[m.to].log.entries)
    && s'.sent == s.sent + {AppendReply(m.to, r.leader, r.term, r.prevIndex, |r.entries|, r.term, true)}
  }

  lemma RecordedHistory(s: Cluster, s': Cluster, m: Message)
    requires m.AppendCall? && m.to in s.nodes && m.to in s'.nodes && Recorded(s, s', m)
    ensures s'.history.acks == s.history.acks + {Ack(m.to, m.append.term, m.append.prevIndex + |m.append.entries|)}
    ensures s'.history == s.history.(acks := s'.history.acks, applied := s'.history.applied)
  {
  }

  /** What an accepting step does to the cluster, apart from what it does to the log. */
  lemma AcceptedEffect(s: Cluster, m: Message)
    requires Enabled(s, DeliverAppendCall(m)) && NoCompaction(After(s, DeliverAppendCall(m)))
    requires HandleAppendEntries(s.nodes[m.to], m.append, s.snapshotInterval).1
    requires var (node', _) := HandleAppendEntries(s.nodes[m.to], m.append, s.snapshotInterval);
             FollowsUp(s.nodes[m.to], node', m.append, node'.log)
    ensures var s' := After(s, DeliverAppendCall(m));
            && m.to in s'.nodes
            && s'.nodes[m.to] == HandleAppendEntries(s.nodes[m.to], m.append, s.snapshotInterval).0
            && Recorded(s, s', m) && Moves(s, s', m.to)
  {
    hide HandleAppendEntries, Applications, NoCompaction;
  }

  lemma AcceptedUncompacted(s: Cluster, m: Message)
    requires Enabled(s, DeliverAppendCall(m)) && NoCompaction(After(s, DeliverAppendCall(m)))
    ensures HandleAppendEntries(s.nodes[m.to], m.append, s.snapshotInterval).0.log.lastIncludedIndex == 0
  {
    hide HandleAppendEntries, RecordApplications;
    assert m.to in After(s, DeliverAppendCall(m)).nodes;
  }

  lemma AppendAccepted(s: Cluster, m: Message)
    requires Inv(s) && Enabled(s, DeliverAppendCall(m))
    requires NoCompaction(After(s, DeliverAppendCall(m)))
    requires HandleAppendEntries(s.nodes[m.to], m.append, s.snapshotInterval).1
    ensures Inv(After(s, DeliverAppendCall(m)))
  {
    hide NodesOk, ElectionsOk, GrantsOk, AcksOk, OutcomesOk, MessagesOk, MessageOk, HandleAppendEntries,
      KeepsAcknowledged, NodeOk, Accepts, After, NoCompaction, Recorded, Grows, Agree, CommittedPrefix;
    var s', n := After(s, DeliverAppendCall(m)), m.to;
    InvNode(s, n);
    InvMessage(s, m);
    AcceptedUncompacted(s, m);
    Acceptance(s, m);
    AcceptedEffect(s, m);
    RecordedHistory(s, s', m);
    AcceptedOk(s, m, s'.history, s'.nodes[n]);
    AcksBound(s, n);
    AcknowledgedSurvives(s, s', m, s'.nodes[n].log);
    AcceptedFrame(s, s', m);
  }

  lemma AcceptedOk(s: Cluster, m: Message, h': History, node': NodeState)
    requires m.AppendCall? && MessageOk(s, m) && m.to in s.nodes
    requires NodeOk(s.history, s.servers, m.to, s.nodes[m.to]) && Grows(s.history, h')
    requires Accepts(s, m, node'.log) && FollowsUp(s.nodes[m.to], node', m.append, node'.log)
    requires CommittedPrefix(s.history, node'.log.entries, s.nodes[m.to].commitIndex, m.append.term)
    ensures NodeOk(h', s.servers, m.to, node')
  {
    hide Accepts, CommittedPrefix, Grows, MessageOk, NodeLogOk, VotesOk;
    NotTheLeader(s, m);
    AcceptedNode(s, m, h', node');
  }

  lemma AcceptanceMatches(node: NodeState, r: AppendRequest, interval: nat)
    requires node.log.lastIncludedIndex <= node.lastApplied
    requires HandleAppendEntries(node, r, interval).1
    ensures r.term >= node.currentTerm && node.log.Matches(r.prevIndex, r.prevTerm)
  {
  }

  /** A leader never receives the AppendEntries of its own term. */
  lemma NotTheLeader(s: Cluster, m: Message)
    requires m.AppendCall? && MessageOk(s, m) && m.to in s.nodes
    requires PeersOk(s.history, s.servers, m.to, s.nodes[m.to])
    ensures s.nodes[m.to].role == Leader ==> s.nodes[m.to].currentTerm != m.append.term
  {
  }

  lemma AcksBound(s: Cluster, n: Id)
    requires AcksOk(s) && n in s.nodes
    ensures forall a | a in s.history.acks && a.node == n :: a.term <= s.nodes[n].currentTerm
  {
    forall a | a in s.history.acks && a.node == n ensures a.term <= s.nodes[n].currentTerm {
      assert AckOk(s.history, s.servers, a, s.nodes[n]);
    }
  }

  lemma AcceptedNode(s: Cluster, m: Message, h': History, node': NodeState)
    requires m.AppendCall? && MessageOk(s, m) && m.to in s.nodes
    requires NodeOk(s.history, s.servers, m.to, s.nodes[m.to]) && Grows(s.history, h')
    requires Accepts(s, m, node'.log)
    requires var node, r := s.nodes[m.to], m.append;
             && node.currentTerm <= r.term == node'.currentTerm
             && node'.role != Leader
             && node'.matchIndex == node.matchIndex && node'.nextIndex == node.nextIndex && node'.votes == node.votes
             && CommittedPrefix(s.history, node'.log.entries, node.commitIndex, r.term)
             && node'.commitIndex == (if r.leaderCommit > node.commitIndex then r.leaderCommit else node.commitIndex)
             && node'.lastApplied <= node'.commitIndex <= |node'.log.entries|
             && node'.store == ApplyLog(node'.log.entries[..node'.lastApplied])
             && node'.snapshot == None
    ensures NodeOk(h', s.servers, m.to, node')
  {
    var h, r, node := s.history, m.append, s.nodes[m.to];
    LogOkGrows(h, h', node'.log.entries);
    VotesOkGrows(h, h', s.servers, m.to, node.votes);
    if r.leaderCommit > node.commitIndex {
      AgreeShorter(node'.log.entries, h.logs[r.term], r.prevIndex + |r.entries|, r.leaderCommit);
      CommittedPrefixCopies(h, h.logs[r.term], node'.log.entries, r.leaderCommit, r.term);
    }
    CommittedPrefixGrows(h, h', node'.log.entries, node'.commitIndex, r.term, r.term);
  }

  lemma AcceptedAcks(s: Cluster, s': Cluster, m: Message)
    requires AcksOk(s) && GrantsOk(s) && m.AppendCall? && Moves(s, s', m.to) && KeepsAcknowledged(s, s', m.to)
    requires Accepts(s, m, s'.nodes[m.to].log) && Recorded(s, s', m)
    requires s'.nodes[m.to].currentTerm == m.append.term
    ensures AcksOk(s')
  {
    hide AcksOk, GrantsOk, KeepsAcknowledged, LogOk;
    RecordedHistory(s, s', m);
    hide Recorded;
    NewAckOk(s, s', Ack(m.to, m.append.term, m.append.prevIndex + |m.append.entries|), s'.nodes[m.to]);
    hide Accepts, Moves, AckOk, AckBeforeBallot;
    AcksFrame(s, s', m.to);
  }

  lemma AcceptedOutcomes(s: Cluster, s': Cluster, m: Message)
    requires OutcomesOk(s) && m.AppendCall? && Moves(s, s', m.to) && Recorded(s, s', m)
    requires NodeOk(s'.history, s.servers, m.to, s'.nodes[m.to])
    ensures OutcomesOk(s')
  {
    hide OutcomesOk, LogOk, CommittedPrefix, PeersOk, VotesOk, Applications;
    var n, node' := m.to, s'.nodes[m.to];
    ApplicationsOk(s'.history, n, s.nodes[n].lastApplied, node'.lastApplied, node'.log.entries, node'.commitIndex,
        node'.currentTerm);
    RecordedHistory(s, s', m);
    hide Moves;
    OutcomesFrame(s, s', n);
  }

  lemma AcceptedMessages(s: Cluster, s': Cluster, m: Message)
    requires MessagesOk(s) && m.AppendCall? && Moves(s, s', m.to) && CandidateKeepsLog(s, s', m.to)
    requires MessageOk(s, m) && Recorded(s, s', m)
    ensures MessagesOk(s')
  {
    hide MessagesOk, CandidateKeepsLog;
    RecordedHistory(s, s', m);
    hide Recorded;
    MessagesFrame(s, s', m.to);
  }

  lemma AcceptedCandidate(s: Cluster, s': Cluster, m: Message)
    requires m.AppendCall? && Moves(s, s', m.to) && Recorded(s, s', m)
    requires MessageOk(s, m) && s'.nodes[m.to].currentTerm == m.append.term
    ensures CandidateKeepsLog(s, s', m.to)
  {
    RecordedHistory(s, s', m);
  }

  lemma AcceptedFrame(s: Cluster, s': Cluster, m: Message)
    requires Inv(s) && m.AppendCall? && Moves(s, s', m.to) && KeepsAcknowledged(s, s', m.to)
    requires MessageOk(s, m) && Accepts(s, m, s'.nodes[m.to].log)
    requires NodeOk(s'.history, s.servers, m.to, s'.nodes[m.to])
    requires s'.nodes[m.to].currentTerm == m.append.term
    requires Recorded(s, s', m)
    ensures Inv(s')
  {
    hide NodesOk, ElectionsOk, GrantsOk, AcksOk, OutcomesOk, MessagesOk, MessageOk, NodeOk, Accepts, KeepsAcknowledged,
      CandidateKeepsLog, Grows;
    AcceptedCandidate(s, s', m);
    AcceptedAcks(s, s', m);
    AcceptedOutcomes(s, s', m);
    AcceptedMessages(s, s', m);
    RecordedHistory(s, s', m);
    hide Recorded;
    NodesFrame(s, s', m.to);
    ElectionsFrame(s, s', m.to);
    GrantsFrame(s, s', m.to);
  }

  /** An acknowledgement just given holds, and comes after every ballot cast so far. */
  lemma NewAckOk(s: Cluster, s': Cluster, a: Ack, node: NodeState)
    requires GrantsOk(s) && s'.history.grants == s.history.grants
    requires a.node in s.nodes && a.node in s.servers && a.term in s'.history.logs
    requires Agree(node.log.entries, s'.history.logs[a.term], a.length) && node.currentTerm == a.term
    requires s.nodes[a.node].currentTerm <= a.term
    ensures AckOk(s'.history, s.servers, a, node)
    ensures forall b | b in s'.history.grants :: AckBeforeBallot(s'.history, a, b)
  {
    forall b | b in s'.history.grants ensures AckBeforeBallot(s'.history, a, b) {
      assert GrantOk(s, b);
    }
    forall n | 0 <= n <= a.length ensures Agree(node.log.entries, s'.history.logs[a.term], n) {
      AgreeShorter(node.log.entries, s'.history.logs[a.term], a.length, n);
    }
  }

  // ----- The leader hears back -----

  lemma AppendReplyStep(s: Cluster, m: Message, k: nat)
    requires Inv(s) && Enabled(s, DeliverAppendReply(m, k)) && RepliesInTerm(s, DeliverAppendReply(m, k))
    requires NoCompaction(After(s, DeliverAppendReply(m, k)))
    ensures Inv(After(s, DeliverAppendReply(m, k)))
  {
    hide NodesOk, ElectionsOk, GrantsOk, AcksOk, OutcomesOk, MessagesOk, NodeLogOk, PeersOk, VotesOk, LogOk, NodeOk,
      CommitTo, IsMajorityMatch, CommitQuorum;
    var s' := After(s, DeliverAppendReply(m, k));
    var n := m.to;
    var node := s.nodes[n];
    InvNode(s, n);
    InvMessage(s, m);
    assert s'.nodes[n].log.lastIncludedIndex == 0;
    if m.replyTerm <= node.currentTerm && m.success {
      if node.role == Leader && m.count > 0 {
        RecordedMatch(s, n, m.from, m.prevIndex + m.count);
        MatchAdvances(s, s', n, RecordMatch(node, m.from, m.prevIndex + m.count), k);
      } else {
        QuietMove(s, n, node, {});
      }
    } else {
      FailedCallNode(s.history, s.servers, n, node, s.ConfigOf(n), m.from, m.prevIndex, m.count, m.replyTerm, k);
      QuietMove(s, n, OnAppendReply(node, s.ConfigOf(n), m.from, m.prevIndex, m.count, m.replyTerm, false, k), {});
    }
  }

  /** A positive reply in the leader's own term: the match index is what the follower acknowledged. */
  lemma RecordedMatch(s: Cluster, n: Id, peer: Id, length: nat)
    requires AcksOk(s) && n in s.nodes && peer in s.servers - {n}
    requires NodeOk(s.history, s.servers, n, s.nodes[n]) && s.nodes[n].role == Leader
    requires Ack(peer, s.nodes[n].currentTerm, length) in s.history.acks
    ensures NodeOk(s.history, s.servers, n, RecordMatch(s.nodes[n], peer, length))
  {
    var a := Ack(peer, s.nodes[n].currentTerm, length);
    assert peer in s.nodes && AckOk(s.history, s.servers, a, s.nodes[peer]);
    NodeLogOkGrows(s.history, s.history, s.nodes[n], RecordMatch(s.nodes[n], peer, length));
  }

  /** The leader at `n` has recorded a match and now stands at `node1`. */
  lemma MatchAdvances(s: Cluster, s': Cluster, n: Id, node1: NodeState, k: nat)
    requires n in s.servers && n in s.nodes
    requires NodeOk(s.history, s.servers, n, node1) && node1.role == Leader
    requires node1 == s.nodes[n].(matchIndex := node1.matchIndex, nextIndex := node1.nextIndex)
    requires IsMajorityMatch(node1.matchIndex, |node1.log.entries|, s.ConfigOf(n).Majority(), k)
    requires CommitTo(node1, s.ConfigOf(n), k).log.lastIncludedIndex == 0
    requires var node' := CommitTo(node1, s.ConfigOf(n), k);
             var h := s.history;
             var h1 := if node'.commitIndex > node1.commitIndex
                       then h.(commits := h.commits + {Commit(node1.currentTerm, k, CommitQuorum(n, node', k))}) else h;
             s' == Move(s, n, node', {},
                 RecordApplications(h1, n, node1.lastApplied, node'.lastApplied, node'.log.entries))
    requires Inv(s)
    ensures Inv(s')
  {
    hide Inv, PeersOk, VotesOk, LogOk, CommitTo, IsMajorityMatch, RecordApplications;
    var node' := CommitTo(node1, s.ConfigOf(n), k);
    if node' == node1 {
      NothingApplied(s.history, n, node1.lastApplied, node1.log.entries);
      QuietMove(s, n, node1, {});
    } else {
      CommitShape(node1, s.ConfigOf(n), k);
      assert CommitQuorum(n, node', k) == CommitQuorum(n, node1, k);
      hide CommitQuorum;
      LeaderAdvances(s, s', n, node1, k);
    }
  }

  lemma NothingApplied(h: History, n: Id, i: nat, log: seq<Entry>)
    ensures RecordApplications(h, n, i, i, log) == h
  {
  }

  lemma LeaderAdvances(s: Cluster, s': Cluster, n: Id, node1: NodeState, k: nat)
    requires n in s.servers && n in s.nodes && Inv(s)
    requires NodeOk(s.history, s.servers, n, node1) && node1.role == Leader
    requires node1 == s.nodes[n].(matchIndex := node1.matchIndex, nextIndex := node1.nextIndex)
    requires IsMajorityMatch(node1.matchIndex, |node1.log.entries|, s.ConfigOf(n).Majority(), k)
    requires node1.commitIndex < k <= |node1.log.entries| && node1.log.entries[k - 1].term == node1.currentTerm
    requires var node' := node1.(commitIndex := k, lastApplied := k, store := ApplyLog(node1.log.entries[..k]));
             var h := s.history.(commits := s.history.commits
                 + {Commit(node1.currentTerm, k, CommitQuorum(n, node1, k))});
             s' == Move(s, n, node', {}, RecordApplications(h, n, node1.lastApplied, k, node1.log.entries))
    ensures Inv(s')
  {
    hide Inv, NodeLogOk, PeersOk, VotesOk, LogOk, IsMajorityMatch, CommitQuorum, Moves, KeepsAcknowledged;
    LeaderPart(s.history, s.servers, n, node1);
    MoveMoves(s, n, s'.nodes[n], {}, s'.history);
    SameLogRetains(s, s', n);
    hide NodeOk, CommitOk, Grows, Progresses;
    NewCommitOk(s.history, s.servers, n, node1, s.ConfigOf(n), k);
    hide LeaderOk;
    LeaderCommits(s, s', n, node1, Commit(node1.currentTerm, k, CommitQuorum(n, node1, k)));
  }

  lemma LeaderPart(h: History, servers: set<Id>, n: Id, node: NodeState)
    requires PeersOk(h, servers, n, node) && node.role == Leader
    ensures LeaderOk(h, servers, n, node)
  {
  }

  lemma CommitKeepsLog(node: NodeState, c: Config, k: nat)
    requires StoreOk(node) && CommitTo(node, c, k).log.lastIncludedIndex == 0
    ensures var node' := CommitTo(node, c, k);
            node' == node.(commitIndex := node'.commitIndex, lastApplied := node'.lastApplied, store := node'.store)
  {
    if CommitTo(node, c, k) != node {
      ApplyWithoutSnapshot(node.(commitIndex := k), c.snapshotInterval);
    }
  }

  lemma CommitShape(node: NodeState, c: Config, k: nat)
    requires StoreOk(node) && CommitTo(node, c, k).log.lastIncludedIndex == 0
    requires CommitTo(node, c, k) != node
    ensures node.commitIndex < k <= |node.log.entries| && node.log.entries[k - 1].term == node.currentTerm
    ensures CommitTo(node, c, k) == node.(commitIndex := k, lastApplied := k, store := ApplyLog(node.log.entries[..k]))
  {
    ApplyWithoutSnapshot(node.(commitIndex := k), c.snapshotInterval);
  }

  /** The nodes whose match index reaches the majority's index, with the leader, are a majority of
      the servers, and each acknowledged the leader's entries that far. */
  lemma NewCommitOk(h: History, servers: set<Id>, n: Id, node: NodeState, c: Config, k: nat)
    requires n in servers && c.me == n && c.peers == servers - {n}
    requires LeaderOk(h, servers, n, node)
    requires 1 <= k <= |node.log.entries| && node.log.entries[k - 1].term == node.currentTerm
    requires IsMajorityMatch(node.matchIndex, |node.log.entries|, c.Majority(), k)
    ensures CommitOk(h, servers, Commit(node.currentTerm, k, CommitQuorum(n, node, k)))
  {
    hide IsMajorityMatch;
    QuorumIsMajority(servers, n, node, c, k);
    forall v | v in CommitQuorum(n, node, k) ensures AckedTo(h, v, node.currentTerm, k) {
      QuorumAcked(h, servers, n, node, k, v);
    }
  }

  lemma QuorumAcked(h: History, servers: set<Id>, n: Id, node: NodeState, k: nat, v: Id)
    requires LeaderOk(h, servers, n, node) && 1 <= k <= |node.log.entries|
    requires v in CommitQuorum(n, node, k)
    ensures AckedTo(h, v, node.currentTerm, k)
  {
    var a := if v == n then Ack(n, node.currentTerm, |node.log.entries|)
        else Ack(v, node.currentTerm, node.matchIndex[v]);
    assert a in h.acks && a.node == v && a.term == node.currentTerm && k <= a.length;
  }

  lemma QuorumIsMajority(servers: set<Id>, n: Id, node: NodeState, c: Config, k: nat)
    requires n in servers && c.me == n && c.peers == servers - {n}
    requires node.matchIndex.Keys <= servers - {n} && k <= |node.log.entries|
    requires IsMajorityMatch(node.matchIndex, |node.log.entries|, c.Majority(), k)
    ensures Majority(servers, CommitQuorum(n, node, k))
  {
    var far := set p | p in node.matchIndex && node.matchIndex[p] >= k;
    assert {n} + c.peers == servers;
    assert n !in far && CommitQuorum(n, node, k) == {n} + far;
  }

  lemma LeaderCommits(s: Cluster, s': Cluster, n: Id, node1: NodeState, c: Commit)
    requires Inv(s) && Moves(s, s', n) && KeepsAcknowledged(s, s', n)
    requires NodeOk(s.history, s.servers, n, node1) && node1.role == Leader
    requires CommitOk(s.history, s.servers, c) && c.term == node1.currentTerm
    requires node1.commitIndex < c.index <= |node1.log.entries|
    requires s'.nodes[n] == node1.(commitIndex := c.index, lastApplied := c.index,
        store := ApplyLog(node1.log.entries[..c.index]))
    requires s'.sent == s.sent
    requires s'.history == RecordApplications(s.history.(commits := s.history.commits + {c}),
                                              n, node1.lastApplied, c.index, node1.log.entries)
    ensures Inv(s')
  {
    hide NodesOk, ElectionsOk, GrantsOk, AcksOk, OutcomesOk, MessagesOk, NodeOk, ApplicationOk;
    CommittedNode(s.history, s'.history, s.servers, n, node1, c);
    CommitOkGrows(s.history, s'.history, s.servers, c);
    ApplicationsOk(s'.history, n, node1.lastApplied, c.index, node1.log.entries, c.index, c.term);
    OutcomesFrame(s, s', n);
    hide RecordApplications, Applications, CommitOk, CommittedPrefix;
    NodesFrame(s, s', n);
    ElectionsFrame(s, s', n);
    GrantsFrame(s, s', n);
    AcksFrame(s, s', n);
    MessagesFrame(s, s', n);
  }

  lemma CommittedNode(h: History, h': History, servers: set<Id>, n: Id, node: NodeState, c: Commit)
    requires NodeOk(h, servers, n, node) && node.role == Leader && Grows(h, h') && h'.logs == h.logs
    requires c in h'.commits && c.term == node.currentTerm && node.commitIndex < c.index <= |node.log.entries|
    ensures NodeOk(h', servers, n,
        node.(commitIndex := c.index, lastApplied := c.index, store := ApplyLog(node.log.entries[..c.index])))
    ensures CommittedPrefix(h', node.log.entries, c.index, c.term)
  {
    hide LogOk, VotesOk, Grows;
    LogOkGrows(h, h', node.log.entries);
    VotesOkGrows(h, h', servers, n, node.votes);
    PeersOkGrows(h, h', servers, n, node);
    assert CoveredBy(h', node.log.entries, c.index, c.term, c);
  }
}
