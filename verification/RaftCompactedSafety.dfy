/** Raft clusters whose nodes compact their logs. As long as no node accepts an AppendEntries that does
    harm below its snapshot, every node stands for one that keeps its whole log, and a cluster of those
    shadows keeps the invariant; so the theorems of a cluster without compaction carry over. */
module RaftCompactedSafety {
  import opened Wrappers
  import opened RaftLogs
  import opened RaftNodes
  import opened RaftCompaction
  import opened RaftCluster
  import opened RaftInvariants
  import opened RaftFrame
  import opened RaftCompleteness
  import opened RaftSteps
  import opened RaftReplication
  import opened RaftSafety

  // ----- The shadow of a cluster -----

  /** `u` is the node, had it never compacted. */
  ghost predicate ShadowsNode(u: NodeState, node: NodeState, interval: nat) {
    && StandsFor(node, u.log.entries) && u == Uncompacted(node, u.log.entries)
    && node.lastApplied - node.log.lastIncludedIndex < interval
  }

  ghost predicate Shadows(t: Cluster, s: Cluster) {
    && s.snapshotInterval >= 1
    && t.servers == s.servers && t.sent == s.sent && t.nodes.Keys == s.nodes.Keys
    && forall n | n in s.nodes :: ShadowsNode(t.nodes[n], s.nodes[n], s.snapshotInterval)
  }

  /** The shadow cluster with an interval it will not reach. */
  function Patient(t: Cluster, interval: nat): Cluster {
    t.(snapshotInterval := interval)
  }

  lemma PatientKeepsInv(t: Cluster, interval: nat)
    requires Inv(t)
    ensures Inv(Patient(t, interval))
  {
    var t' := Patient(t, interval);
    hide NodeOk, ElectionOk, TermLogOk, AckOk, AckBeforeBallot, CommitOk, ApplicationOk, LeadershipOk;
    forall b | b in t'.history.grants ensures GrantOk(t', b) {
      assert GrantOk(t, b);
    }
    forall m | m in t'.sent ensures MessageOk(t', m) {
      assert MessageOk(t, m);
    }
    forall e | e in t'.history.elections ensures TermLeaderOk(t', e) {
      assert TermLeaderOk(t, e);
    }
  }

  lemma InitIsShadowed(s: Cluster)
    requires Init(s) && s.snapshotInterval >= 1
    ensures Shadows(s, s) && Inv(s)
  {
    InitKeepsInv(s);
  }

  lemma ShadowOf(s: Cluster, t: Cluster, n: Id)
    requires Shadows(t, s) && n in s.nodes
    ensures n in t.nodes && s.snapshotInterval >= 1 && ShadowsNode(t.nodes[n], s.nodes[n], s.snapshotInterval)
  {
  }

  lemma ShadowsReveal(u: NodeState, node: NodeState, interval: nat)
    requires ShadowsNode(u, node, interval)
    ensures StandsFor(node, u.log.entries) && u == Uncompacted(node, u.log.entries)
    ensures node.lastApplied - node.log.lastIncludedIndex < interval
    ensures u.log == Whole(u.log.entries) && u.log.Length() == node.log.Length() == |u.log.entries|
    ensures node.log.lastIncludedIndex <= node.lastApplied <= node.commitIndex <= |u.log.entries|
  {
  }

  lemma OneNodeShadowed(s: Cluster, t: Cluster, n: Id, node': NodeState, u': NodeState, s': Cluster, t': Cluster)
    requires Shadows(t, s) && n in s.nodes && ShadowsNode(u', node', s.snapshotInterval)
    requires s' == s.(nodes := s.nodes[n := node'], sent := s'.sent, history := s'.history)
    requires t'.servers == t.servers && t'.nodes == t.nodes[n := u'] && t'.sent == s'.sent
    ensures Shadows(t', s')
  {
    hide ShadowsNode;
  }

  /** A step changes one node, the messages and the history. */
  lemma AfterMoves(s: Cluster, step: Step)
    requires Enabled(s, step)
    ensures var n, s' := step.Actor(), After(s, step);
            n in s.nodes && n in s'.nodes
                && s' == s.(nodes := s.nodes[n := s'.nodes[n]], sent := s'.sent, history := s'.history)
  {
    assert step.Actor() in s.nodes;
    hide HandleRequestVote, HandleAppendEntries, OnVoteReply, OnAppendReply, StartElection, SubmitCommand, Restart,
      AppendRequestOf, RecordApplications, RecordElection, RecordGrant, Enabled;
  }

  /** Where the shadow takes the same step and ends as the shadow of the result, all is well. */
  lemma Lockstep(s: Cluster, t: Cluster, step: Step)
    requires Shadows(t, s) && Inv(t) && Enabled(s, step) && Enabled(t, step) && RepliesInTerm(t, step)
    requires step.Actor() in After(s, step).nodes && step.Actor() in After(t, step).nodes
    requires ShadowsNode(After(t, step).nodes[step.Actor()], After(s, step).nodes[step.Actor()], s.snapshotInterval)
    requires After(t, step).sent == After(s, step).sent
    ensures Shadows(After(t, step), After(s, step)) && Inv(After(t, step)) && Grows(t.history, After(t, step).history)
  {
    hide After, Enabled, RepliesInTerm, Inv, Grows, ShadowsNode;
    AfterMoves(s, step);
    AfterMoves(t, step);
    var n := step.Actor();
    OneNodeShadowed(s, t, n, After(s, step).nodes[n], After(t, step).nodes[n], After(s, step), After(t, step));
    ShadowsAreWhole(After(t, step), After(s, step));
    StepKeepsInv(t, step);
    StepGrows(t, step);
  }

  lemma ShadowsAreWhole(t: Cluster, s: Cluster)
    requires Shadows(t, s)
    ensures NoCompaction(t)
  {
  }

  // ----- Steps that do not look at dropped entries -----

  lemma TimeoutShadowed(s: Cluster, t: Cluster, n: Id) returns (t': Cluster)
    requires Shadows(t, s) && Inv(t) && Enabled(s, Timeout(n))
    ensures Shadows(t', After(s, Timeout(n))) && Inv(t') && Grows(t.history, t'.history)
  {
    hide Inv, Grows;
    ShadowOf(s, t, n);
    ElectionShadowed(t.nodes[n], s.nodes[n], t.ConfigOf(n), s.ConfigOf(n), s.snapshotInterval);
    hide Shadows, StandsFor, ShadowsNode, StartElection, RecordGrant, VoteRequestOf;
    ShadowSame(t, s);
    Lockstep(s, t, Timeout(n));
    t' := After(t, Timeout(n));
  }

  lemma ShadowSame(t: Cluster, s: Cluster)
    requires Shadows(t, s)
    ensures t.servers == s.servers && t.sent == s.sent && t.nodes.Keys == s.nodes.Keys
  {
  }

  lemma ElectionShadowed(u: NodeState, node: NodeState, c': Config, c: Config, interval: nat)
    requires ShadowsNode(u, node, interval) && c'.me == c.me && c'.peers == c.peers
    ensures ShadowsNode(StartElection(u, c'), StartElection(node, c), interval)
    ensures VoteRequestOf(StartElection(u, c'), c') == VoteRequestOf(StartElection(node, c), c)
    ensures u.role == node.role && u.log.lastIncludedIndex <= u.lastApplied
  {
    RepresentedTerm(node.log, u.log.entries, |u.log.entries|);
  }

  lemma VoteCallShadowed(s: Cluster, t: Cluster, m: Message) returns (t': Cluster)
    requires Shadows(t, s) && Inv(t) && Enabled(s, DeliverVoteCall(m))
    ensures Shadows(t', After(s, DeliverVoteCall(m))) && Inv(t') && Grows(t.history, t'.history)
  {
    hide Inv, Grows;
    ShadowOf(s, t, m.to);
    VoteShadowed(t.nodes[m.to], s.nodes[m.to], m.vote, s.snapshotInterval);
    ShadowSame(t, s);
    hide Shadows, StandsFor, ShadowsNode, HandleRequestVote, RecordGrant;
    Lockstep(s, t, DeliverVoteCall(m));
    t' := After(t, DeliverVoteCall(m));
  }

  lemma VoteShadowed(u: NodeState, node: NodeState, r: VoteRequest, interval: nat)
    requires ShadowsNode(u, node, interval)
    ensures ShadowsNode(HandleRequestVote(u, r).0, HandleRequestVote(node, r).0, interval)
    ensures HandleRequestVote(u, r).1 == HandleRequestVote(node, r).1
    ensures HandleRequestVote(u, r).0.currentTerm == HandleRequestVote(node, r).0.currentTerm
    ensures u.log.lastIncludedIndex <= u.lastApplied
  {
    var full := u.log.entries;
    VoteAgrees(node, full, r);
    hide HandleRequestVote;
    VoteReads(node, r);
  }

  lemma VoteReads(node: NodeState, r: VoteRequest)
    ensures var node' := HandleRequestVote(node, r).0;
            node' == node.(currentTerm := node'.currentTerm, votedFor := node'.votedFor, role := node'.role)
  {
  }

  lemma VoteReplyShadowed(s: Cluster, t: Cluster, m: Message) returns (t': Cluster)
    requires Shadows(t, s) && Inv(t) && Enabled(s, DeliverVoteReply(m)) && RepliesInTerm(s, DeliverVoteReply(m))
    ensures Shadows(t', After(s, DeliverVoteReply(m))) && Inv(t') && Grows(t.history, t'.history)
  {
    hide Inv, Grows;
    ShadowOf(s, t, m.to);
    WorkerShadowed(t.nodes[m.to], s.nodes[m.to], t.ConfigOf(m.to), s.ConfigOf(m.to), m, s.snapshotInterval);
    ShadowSame(t, s);
    hide Shadows, StandsFor, ShadowsNode, OnVoteReply, RecordElection;
    Lockstep(s, t, DeliverVoteReply(m));
    t' := After(t, DeliverVoteReply(m));
  }

  lemma WorkerShadowed(u: NodeState, node: NodeState, c': Config, c: Config, m: Message, interval: nat)
    requires ShadowsNode(u, node, interval) && c'.me == c.me && c'.peers == c.peers && m.VoteReply?
    ensures var u', node' := OnVoteReply(u, c', m.from, m.requestTerm, m.replyTerm, m.granted),
                             OnVoteReply(node, c, m.from, m.requestTerm, m.replyTerm, m.granted);
            && ShadowsNode(u', node', interval)
            && u.role == node.role && u.currentTerm == node.currentTerm && u'.role == node'.role
            && (u.role == Candidate && u'.role == Leader ==> m.requestTerm in u'.votes)
    ensures u.log.lastIncludedIndex <= u.lastApplied
  {
    ShadowsReveal(u, node, interval);
    hide ShadowsNode, StandsFor, BecomeLeader;
    if node.role == Candidate && m.replyTerm <= node.currentTerm && m.granted {
      var received := (if m.requestTerm in node.votes then node.votes[m.requestTerm] else {}) + {m.from};
      var u1, node1 := u.(votes := u.votes[m.requestTerm := received]),
          node.(votes := node.votes[m.requestTerm := received]);
      ShadowsSameLog(u, node, u1, node1, interval);
      LeaderShadowed(u1, node1, c', c, interval);
    } else {
      ShadowsSameLog(u, node, UpdateTerm(u, m.replyTerm), UpdateTerm(node, m.replyTerm), interval);
    }
  }

  lemma LeaderShadowed(u: NodeState, node: NodeState, c': Config, c: Config, interval: nat)
    requires ShadowsNode(u, node, interval) && c'.peers == c.peers
    ensures ShadowsNode(BecomeLeader(u, c'), BecomeLeader(node, c), interval)
    ensures BecomeLeader(u, c').role == BecomeLeader(node, c).role == Leader
    ensures BecomeLeader(u, c').votes == u.votes == node.votes
  {
    ShadowsReveal(u, node, interval);
    hide ShadowsNode, StandsFor, Fill;
    ShadowsSameLog(u, node, BecomeLeader(u, c'), BecomeLeader(node, c), interval);
  }

  predicate SameButLog(u: NodeState, node: NodeState) {
    u == node.(log := u.log, snapshot := u.snapshot)
  }

  /** What does not touch the log and the store keeps the shadow. */
  lemma ShadowsSameLog(u: NodeState, node: NodeState, u': NodeState, node': NodeState, interval: nat)
    requires ShadowsNode(u, node, interval) && SameButLog(u', node')
    requires u'.log == u.log && u'.snapshot == u.snapshot
    requires node'.log == node.log && node'.snapshot == node.snapshot && node'.store == node.store
    requires node'.commitIndex == node.commitIndex && node'.lastApplied == node.lastApplied
    ensures ShadowsNode(u', node', interval)
  {
  }

  lemma SendShadowed(s: Cluster, t: Cluster, n: Id, peer: Id) returns (t': Cluster)
    requires Shadows(t, s) && Inv(t) && Enabled(s, SendAppend(n, peer))
    ensures Shadows(t', After(s, SendAppend(n, peer))) && Inv(t') && Grows(t.history, t'.history)
  {
    hide Inv;
    var step := SendAppend(n, peer);
    ShadowOf(s, t, n);
    ShadowsReveal(t.nodes[n], s.nodes[n], s.snapshotInterval);
    ShippingAgrees(s.nodes[n], t.nodes[n].log.entries, s.ConfigOf(n), peer);
    ConfigDoesNotMatter(t.nodes[n], t.ConfigOf(n), s.ConfigOf(n), peer);
    ShadowSame(t, s);
    hide StandsFor, ShadowsNode, AppendRequestOf;
    if AppendRequestOf(s.nodes[n], s.ConfigOf(n), peer) == None {
      t' := t;
      assert s.nodes == s.nodes[n := s.nodes[n]];
    } else {
      hide Shadows;
      Lockstep(s, t, step);
      t' := After(t, step);
    }
  }

  lemma ConfigDoesNotMatter(u: NodeState, c': Config, c: Config, peer: Id)
    requires c'.me == c.me
    ensures AppendRequestOf(u, c', peer) == AppendRequestOf(u, c, peer)
  {
  }

  lemma CallFailsShadowed(s: Cluster, t: Cluster, n: Id, peer: Id) returns (t': Cluster)
    requires Shadows(t, s) && Inv(t) && Enabled(s, CallFails(n, peer))
    ensures Shadows(t', After(s, CallFails(n, peer))) && Inv(t') && Grows(t.history, t'.history)
  {
    hide Inv, Grows;
    ShadowOf(s, t, n);
    FailureShadowed(t.nodes[n], s.nodes[n], t.ConfigOf(n), s.ConfigOf(n), peer, s.snapshotInterval);
    ShadowSame(t, s);
    hide Shadows, StandsFor, ShadowsNode, OnAppendReply;
    Lockstep(s, t, CallFails(n, peer));
    t' := After(t, CallFails(n, peer));
  }

  lemma FailureShadowed(u: NodeState, node: NodeState, c': Config, c: Config, peer: Id, interval: nat)
    requires ShadowsNode(u, node, interval)
    ensures node.log.lastIncludedIndex <= node.lastApplied && u.log.lastIncludedIndex <= u.lastApplied
    ensures ShadowsNode(OnAppendReply(u, c', peer, 0, 0, 0, false, 0),
        OnAppendReply(node, c, peer, 0, 0, 0, false, 0), interval)
  {
  }

  lemma SubmitShadowed(s: Cluster, t: Cluster, n: Id, command: Command) returns (t': Cluster)
    requires Shadows(t, s) && Inv(t) && Enabled(s, Submit(n, command))
    ensures Shadows(t', After(s, Submit(n, command))) && Inv(t') && Grows(t.history, t'.history)
  {
    hide Inv, Grows;
    ShadowOf(s, t, n);
    SubmissionShadowed(t.nodes[n], s.nodes[n], command, s.snapshotInterval);
    ShadowSame(t, s);
    hide Shadows, StandsFor, ShadowsNode, SubmitCommand;
    Lockstep(s, t, Submit(n, command));
    t' := After(t, Submit(n, command));
  }

  lemma SubmissionShadowed(u: NodeState, node: NodeState, command: Command, interval: nat)
    requires ShadowsNode(u, node, interval)
    ensures ShadowsNode(SubmitCommand(u, command), SubmitCommand(node, command), interval)
    ensures u.log.lastIncludedIndex <= u.lastApplied
  {
    ShadowsReveal(u, node, interval);
    var full, e := u.log.entries, Entry(node.currentTerm, node.log.Length() + 1, command);
    AppendKeepsRepresenting(node.log, full, e);
    assert (full + [e])[..|full|] == full[..|full|];
    SamePrefixes(full, full + [e], |full|, node.lastApplied);
    SamePrefixes(full, full + [e], |full|, node.log.lastIncludedIndex);
    hide ApplyLog, SnapshotOf, TermOf, LogState.Represents;
  }

  // ----- Applying, compacting, restarting -----

  lemma ReplyShadowed(s: Cluster, t: Cluster, m: Message, k: nat) returns (t': Cluster)
    requires Shadows(t, s) && Inv(t) && Enabled(s, DeliverAppendReply(m, k))
    requires RepliesInTerm(s, DeliverAppendReply(m, k))
    ensures Shadows(t', After(s, DeliverAppendReply(m, k))) && Inv(t') && Grows(t.history, t'.history)
  {
    hide Inv, Grows, IsMajorityMatch, StandsFor, ShadowsNode, OnAppendReply, RecordMatch;
    var step := DeliverAppendReply(m, k);
    var full := t.nodes[m.to].log.entries;
    var t1 := Patient(t, |full| + 1);
    PatientKeepsInv(t, |full| + 1);
    ShadowOf(s, t, m.to);
    AckShadowed(t1.nodes[m.to], s.nodes[m.to], t1.ConfigOf(m.to), s.ConfigOf(m.to), m, k);
    ShadowSame(t, s);
    PatientShadows(t, s, |full| + 1);
    hide Shadows;
    ReplyIsEnabled(s, t1, m, k);
    ReplyEffect(s, m, k);
    ReplyEffect(t1, m, k);
    hide After, Enabled, RepliesInTerm;
    Lockstep(s, t1, step);
    t' := After(t1, step);
  }

  lemma ReplyIsEnabled(s: Cluster, t: Cluster, m: Message, k: nat)
    requires Enabled(s, DeliverAppendReply(m, k)) && RepliesInTerm(s, DeliverAppendReply(m, k))
    requires t.servers == s.servers && t.sent == s.sent && m.to in t.nodes
    requires var u, node := t.nodes[m.to], s.nodes[m.to];
             && u.log.lastIncludedIndex <= u.lastApplied && u.log.Length() == node.log.Length()
             && u.role == node.role && u.currentTerm == node.currentTerm
             && RecordMatch(u, m.from, m.prevIndex + m.count).matchIndex
                == RecordMatch(node, m.from, m.prevIndex + m.count).matchIndex
    ensures Enabled(t, DeliverAppendReply(m, k)) && RepliesInTerm(t, DeliverAppendReply(m, k))
  {
    hide IsMajorityMatch, RecordMatch;
  }

  lemma ReplyEffect(s: Cluster, m: Message, k: nat)
    requires Enabled(s, DeliverAppendReply(m, k))
    ensures var s', node := After(s, DeliverAppendReply(m, k)), s.nodes[m.to];
            && m.to in s'.nodes && s'.sent == s.sent
            && s'.nodes[m.to] == OnAppendReply(node, s.ConfigOf(m.to), m.from, m.prevIndex, m.count, m.replyTerm,
                m.success, k)
  {
    hide OnAppendReply, IsMajorityMatch, RecordMatch, RecordApplications, CommitQuorum;
  }

  lemma PatientShadows(t: Cluster, s: Cluster, interval: nat)
    requires Shadows(t, s)
    ensures Shadows(Patient(t, interval), s)
  {
  }

  lemma AckShadowed(u: NodeState, node: NodeState, c': Config, c: Config, m: Message, k: nat)
    requires ShadowsNode(u, node, c.snapshotInterval) && c.snapshotInterval >= 1
    requires c'.snapshotInterval > |u.log.entries|
    requires m.AppendReply?
    ensures node.log.lastIncludedIndex <= node.lastApplied && u.log.lastIncludedIndex <= u.lastApplied
    ensures ShadowsNode(OnAppendReply(u, c', m.from, m.prevIndex, m.count, m.replyTerm, m.success, k),
                        OnAppendReply(node, c, m.from, m.prevIndex, m.count, m.replyTerm, m.success, k),
                            c.snapshotInterval)
    ensures u.log.Length() == node.log.Length() && u.role == node.role && u.currentTerm == node.currentTerm
    ensures RecordMatch(u, m.from, m.prevIndex + m.count).matchIndex
            == RecordMatch(node, m.from, m.prevIndex + m.count).matchIndex
  {
    ShadowsReveal(u, node, c.snapshotInterval);
    hide ShadowsNode, StandsFor, CommitTo, OnAppendReply;
    if m.replyTerm <= node.currentTerm && node.role == Leader && m.success && m.count > 0 {
      RecordedShadowed(u, node, c', c, m, k);
    } else {
      UnrecordedShadowed(u, node, c', c, m, k);
    }
  }

  lemma RecordedShadowed(u: NodeState, node: NodeState, c': Config, c: Config, m: Message, k: nat)
    requires ShadowsNode(u, node, c.snapshotInterval) && c.snapshotInterval >= 1
    requires c'.snapshotInterval > |u.log.entries|
    requires m.AppendReply? && m.replyTerm <= node.currentTerm && node.role == Leader && m.success && m.count > 0
    ensures node.log.lastIncludedIndex <= node.lastApplied && u.log.lastIncludedIndex <= u.lastApplied
    ensures ShadowsNode(OnAppendReply(u, c', m.from, m.prevIndex, m.count, m.replyTerm, m.success, k),
                        OnAppendReply(node, c, m.from, m.prevIndex, m.count, m.replyTerm, m.success, k),
                            c.snapshotInterval)
  {
    ShadowsReveal(u, node, c.snapshotInterval);
    hide ShadowsNode, StandsFor, CommitTo, RecordMatch;
    var n := m.prevIndex + m.count;
    MatchShadowed(u, node, m.from, n, c.snapshotInterval);
    CommitShadowed(RecordMatch(u, m.from, n), RecordMatch(node, m.from, n), c', c, k);
  }

  /** Any other reply touches only the term, the role and the next index. */
  lemma UnrecordedShadowed(u: NodeState, node: NodeState, c': Config, c: Config, m: Message, k: nat)
    requires ShadowsNode(u, node, c.snapshotInterval)
    requires m.AppendReply? && !(m.replyTerm <= node.currentTerm && node.role == Leader && m.success && m.count > 0)
    ensures node.log.lastIncludedIndex <= node.lastApplied && u.log.lastIncludedIndex <= u.lastApplied
    ensures ShadowsNode(OnAppendReply(u, c', m.from, m.prevIndex, m.count, m.replyTerm, m.success, k),
                        OnAppendReply(node, c, m.from, m.prevIndex, m.count, m.replyTerm, m.success, k),
                            c.snapshotInterval)
  {
    ShadowsReveal(u, node, c.snapshotInterval);
    hide ShadowsNode, StandsFor, CommitTo, RecordMatch;
    if m.replyTerm > node.currentTerm {
      ShadowsSameLog(u, node, UpdateTerm(u, m.replyTerm), UpdateTerm(node, m.replyTerm), c.snapshotInterval);
    } else if node.role == Leader && !m.success && m.from in node.nextIndex {
      var next := if node.nextIndex[m.from] <= 2 then 1 else node.nextIndex[m.from] - 1;
      var u', node' := u.(nextIndex := u.nextIndex[m.from := next]), node.(nextIndex := node.nextIndex[m.from := next]);
      ShadowsSameLog(u, node, u', node', c.snapshotInterval);
    }
  }

  lemma MatchShadowed(u: NodeState, node: NodeState, p: Id, n: nat, interval: nat)
    requires ShadowsNode(u, node, interval)
    ensures ShadowsNode(RecordMatch(u, p, n), RecordMatch(node, p, n), interval)
  {
    ShadowsReveal(u, node, interval);
    hide ShadowsNode, StandsFor;
    ShadowsSameLog(u, node, RecordMatch(u, p, n), RecordMatch(node, p, n), interval);
  }

  lemma CommitShadowed(u: NodeState, node: NodeState, c': Config, c: Config, k: nat)
    requires ShadowsNode(u, node, c.snapshotInterval) && c.snapshotInterval >= 1
    requires c'.snapshotInterval > |u.log.entries|
    ensures node.log.lastIncludedIndex <= node.lastApplied && u.log.lastIncludedIndex <= u.lastApplied
    ensures ShadowsNode(CommitTo(u, c', k), CommitTo(node, c, k), c.snapshotInterval)
  {
    var full := u.log.entries;
    ShadowsReveal(u, node, c.snapshotInterval);
    hide StandsFor;
    if node.commitIndex < k <= |full| {
      RepresentedTermOf(node, full, k);
      if node.log.TermAt(k) == node.currentTerm {
        StandsCommitted(node, full, k);
        ApplyAgrees(node.(commitIndex := k), full, c.snapshotInterval, c'.snapshotInterval);
      }
    }
  }

  lemma RepresentedTermOf(node: NodeState, full: seq<Entry>, k: nat)
    requires StandsFor(node, full) && node.commitIndex < k <= |full|
    ensures node.log.TermAt(k) == Whole(full).TermAt(k)
  {
    RepresentedTerm(node.log, full, k);
  }

  /** A node that restarts begins at its snapshot; the shadow then keeps what the snapshot covers. */
  lemma CrashShadowed(s: Cluster, t: Cluster, n: Id) returns (t': Cluster)
    requires Shadows(t, s) && Inv(t) && Enabled(s, Crash(n))
    ensures Shadows(t', After(s, Crash(n))) && Inv(t') && Grows(t.history, t'.history)
  {
    hide Inv, NodeOk, StandsFor, ShadowsNode, Restart;
    ShadowOf(s, t, n);
    var node' := Restart(s.nodes[n]);
    var u' := Uncompacted(node', t.nodes[n].log.entries);
    RestartShadowed(t.nodes[n], s.nodes[n], s.snapshotInterval);
    ShadowNodeOk(t, n);
    RestartedNodeOk(t.history, t.servers, n, t.nodes[n], s.nodes[n], s.snapshotInterval);
    t' := Move(t, n, u', {}, t.history);
    QuietMove(t, n, u', {});
    OneNodeShadowed(s, t, n, node', u', After(s, Crash(n)), t');
  }

  lemma ShadowNodeOk(t: Cluster, n: Id)
    requires Inv(t) && n in t.servers
    ensures n in t.nodes && NodeOk(t.history, t.servers, n, t.nodes[n])
  {
    InvNode(t, n);
  }

  lemma RestartShadowed(u: NodeState, node: NodeState, interval: nat)
    requires ShadowsNode(u, node, interval) && interval >= 1
    ensures ShadowsNode(Uncompacted(Restart(node), u.log.entries), Restart(node), interval)
    ensures Progresses(u, Uncompacted(Restart(node), u.log.entries))
  {
  }

  lemma RestartedNodeOk(h: History, servers: set<Id>, n: Id, u: NodeState, node: NodeState, interval: nat)
    requires ShadowsNode(u, node, interval) && NodeOk(h, servers, n, u)
    ensures NodeOk(h, servers, n, Uncompacted(Restart(node), u.log.entries))
    ensures Uncompacted(Restart(node), u.log.entries).log.entries == u.log.entries
  {
    hide LogOk, TermsUpTo, CommittedPrefix;
    CommittedShorter(h, u.log.entries, u.commitIndex, u.currentTerm, node.log.lastIncludedIndex);
  }

  // ----- AppendEntries -----

  lemma NodeIsInTerm(t: Cluster, node: NodeState, n: Id)
    requires Inv(t) && n in t.servers && n in t.nodes && node.currentTerm == t.nodes[n].currentTerm
    ensures InTerm(node, t.nodes[n].log.entries)
  {
    hide ElectionsOk, GrantsOk, AcksOk, OutcomesOk, MessagesOk, LogOk;
    InvNode(t, n);
    InvTerms(t);
    AscendingLog(t.history, t.nodes[n].log.entries);
  }

  lemma AscendingLog(h: History, log: seq<Entry>)
    requires TermsOk(h) && LogOk(h, log)
    ensures Ascending(log)
  {
    forall i, j | 0 <= i < j < |log| ensures log[i].term <= log[j].term {
      TermsAscend(h, log, i, j);
    }
  }

  /** What a leader ships does not contradict what a node of its term or an earlier one has committed. */
  lemma RequestIsHonest(t: Cluster, m: Message, node: NodeState)
    requires Inv(t) && m in t.sent && m.AppendCall? && m.to in t.servers && m.to in t.nodes
    requires node.commitIndex == t.nodes[m.to].commitIndex && t.nodes[m.to].currentTerm <= m.append.term
    ensures IsHonest(node, t.nodes[m.to].log.entries, m.append)
  {
    hide NodesOk, ElectionsOk, GrantsOk, AcksOk, OutcomesOk, MessagesOk, LogOk, CommittedPrefix, TermsUpTo;
    var r, full := m.append, t.nodes[m.to].log.entries;
    InvMessage(t, m);
    InvTermLog(t, r.term);
    InvTerms(t);
    LeaderHasNodesCommitted(t, m.to, r.term);
    var leader := t.history.logs[r.term];
    SliceIsHonest(t.history, full, leader, node.commitIndex, r);
    ShadowNodeOk(t, m.to);
  }

  lemma LeaderHasNodesCommitted(t: Cluster, n: Id, term: nat)
    requires Inv(t) && n in t.servers && n in t.nodes && term in t.history.logs && t.nodes[n].currentTerm <= term
    ensures Agree(t.nodes[n].log.entries, t.history.logs[term], t.nodes[n].commitIndex)
  {
    hide NodesOk, ElectionsOk, GrantsOk, AcksOk, MessagesOk, LogOk;
    InvNode(t, n);
    var h, node := t.history, t.nodes[n];
    if node.commitIndex > 0 {
      var c :| c in h.commits && CoveredBy(h, node.log.entries, node.commitIndex, node.currentTerm, c);
      LaterLogsHaveCommitted(t, c, term);
      AgreeShorter(h.logs[term], h.logs[c.term], c.index, node.commitIndex);
    }
  }

  lemma SliceIsHonest(h: History, full: seq<Entry>, leader: seq<Entry>, n: nat, r: AppendRequest)
    requires TermsOk(h) && LogOk(h, leader) && TermsUpTo(leader, r.term) && Agree(full, leader, n)
    requires r.prevIndex + |r.entries| <= |leader| && r.entries == leader[r.prevIndex..r.prevIndex + |r.entries|]
    requires r.prevTerm == TermOf(leader, r.prevIndex)
    ensures 0 < r.prevIndex <= n ==> r.prevTerm == TermOf(full, r.prevIndex)
    ensures Repeats(full, r.prevIndex, r.entries, n) && Ascending(r.entries)
    ensures forall e | e in r.entries :: (r.prevIndex > 0 ==> r.prevTerm <= e.term) && e.term <= r.term
  {
    hide LogOk;
    AscendingLog(h, leader);
    if 0 < r.prevIndex <= n {
      AgreeAt(full, leader, n, r.prevIndex - 1);
    }
    forall j | 0 <= j < |r.entries| && r.prevIndex + j < n ensures r.entries[j].term == full[r.prevIndex + j].term {
      AgreeAt(full, leader, n, r.prevIndex + j);
    }
    forall e | e in r.entries ensures (r.prevIndex > 0 ==> r.prevTerm <= e.term) && e.term <= r.term {
      var j :| 0 <= j < |r.entries| && r.entries[j] == e;
      assert leader[r.prevIndex + j] == e;
    }
  }

  lemma AppendShadowed(s: Cluster, t: Cluster, m: Message) returns (t': Cluster)
    requires Shadows(t, s) && Inv(t) && Enabled(s, DeliverAppendCall(m)) && AppendIsHarmless(s, DeliverAppendCall(m))
    ensures Shadows(t', After(s, DeliverAppendCall(m))) && Inv(t') && Grows(t.history, t'.history)
  {
    hide Inv, Grows, StandsFor, ShadowsNode, HandleAppendEntries, IsHonest, IsHarmless, InTerm, LogState.Matches;
    var n, r := m.to, m.append;
    var node, full := s.nodes[n], t.nodes[n].log.entries;
    ShadowOf(s, t, n);
    ShadowSame(t, s);
    ShadowsReveal(t.nodes[n], node, s.snapshotInterval);
    NodeIsInTerm(t, node, n);
    if r.term >= node.currentTerm {
      RequestIsHonest(t, m, node);
      RefusedIsHarmless(node.log, r);
    }
    var never := |MergedWhole(full, r)| + |full| + 1;
    AppendAgrees(node, full, r, s.snapshotInterval, never);
    if IsAccepted(node, r) || r.term < node.currentTerm || r.prevIndex >= node.log.lastIncludedIndex {
      var t1 := Patient(t, never);
      PatientKeepsInv(t, never);
      PatientShadows(t, s, never);
      var (node', ok) := HandleAppendEntries(node, r, s.snapshotInterval);
      var u' := HandleAppendEntries(t1.nodes[n], r, never).0;
      IsShadowOf(u', node', if ok then MergedWhole(full, r) else full, s.snapshotInterval);
      hide Shadows, MergedWhole, RecordApplications;
      Lockstep(s, t1, DeliverAppendCall(m));
      t' := After(t1, DeliverAppendCall(m));
    } else {
      RefusedOnly(node, r, s.snapshotInterval);
      t' := RefusalShadowed(s, t, m, After(s, DeliverAppendCall(m)));
    }
  }

  lemma RefusedIsHarmless(log: LogState, r: AppendRequest)
    ensures !log.Matches(r.prevIndex, r.prevTerm) ==> IsHarmless(log, r)
  {
  }

  lemma IsShadowOf(u: NodeState, node: NodeState, full: seq<Entry>, interval: nat)
    requires StandsFor(node, full) && u == Uncompacted(node, full)
    requires node.lastApplied - node.log.lastIncludedIndex < interval
    ensures ShadowsNode(u, node, interval)
  {
  }

  /** Inside its snapshot a node refuses requests that it would accept with its whole log. The shadow then
      refuses as well; no run of uncompacted nodes does so, but the invariant does not mind. */
  lemma RefusalShadowed(s: Cluster, t: Cluster, m: Message, s': Cluster) returns (t': Cluster)
    requires Shadows(t, s) && Inv(t) && m.AppendCall? && m.to in s.nodes && m.to in s.servers
    requires var node := s.nodes[m.to];
             var node' := if m.append.term > node.currentTerm then UpdateTerm(node, m.append.term) else node;
             && s' == s.(nodes := s.nodes[m.to := node'], sent := s'.sent, history := s'.history)
             && s'.sent == s.sent + {RefusalOf(m, node')}
    ensures Shadows(t', s') && Inv(t') && Grows(t.history, t'.history)
  {
    hide Inv, StandsFor, ShadowsNode, NodeOk;
    var n, r := m.to, m.append;
    var node, u := s.nodes[n], t.nodes[n];
    ShadowOf(s, t, n);
    ShadowSame(t, s);
    ShadowsReveal(u, node, s.snapshotInterval);
    var node' := if r.term > node.currentTerm then UpdateTerm(node, r.term) else node;
    var u' := if r.term > node.currentTerm then UpdateTerm(u, r.term) else u;
    ShadowsSameLog(u, node, u', node', s.snapshotInterval);
    ShadowNodeOk(t, n);
    if r.term > node.currentTerm {
      UpdatedNodeOk(t.history, t.servers, n, u, r.term);
    }
    t' := Move(t, n, u', {RefusalOf(m, node')}, t.history);
    QuietMove(t, n, u', {RefusalOf(m, node')});
    hide Shadows;
    OneNodeShadowed(s, t, n, node', u', s', t');
  }

  function RefusalOf(m: Message, node: NodeState): Message
    requires m.AppendCall?
  {
    AppendReply(m.to, m.append.leader, m.append.term, m.append.prevIndex, |m.append.entries|, node.currentTerm, false)
  }

  lemma UpdatedNodeOk(h: History, servers: set<Id>, n: Id, u: NodeState, term: nat)
    requires NodeOk(h, servers, n, u) && term > u.currentTerm
    ensures NodeOk(h, servers, n, UpdateTerm(u, term))
  {
    SameLogNode(h, h, servers, n, u, UpdateTerm(u, term));
  }

  lemma RefusedOnly(node: NodeState, r: AppendRequest, interval: nat)
    requires node.log.lastIncludedIndex <= node.lastApplied && !IsAccepted(node, r)
    ensures HandleAppendEntries(node, r, interval)
            == (if r.term > node.currentTerm then UpdateTerm(node, r.term) else node, false)
  {
  }

  // ----- Runs -----

  lemma StepShadowed(s: Cluster, step: Step, s': Cluster, t: Cluster) returns (t': Cluster)
    requires Shadows(t, s) && Inv(t) && CompactingTransition(s, step, s')
    ensures Shadows(t', s') && Inv(t') && Grows(t.history, t'.history)
  {
    hide Shadows, Inv, Grows, After, Enabled, RepliesInTerm, AppendIsHarmless;
    match step
    case Timeout(n) => t' := TimeoutShadowed(s, t, n);
    case DeliverVoteCall(m) => t' := VoteCallShadowed(s, t, m);
    case DeliverVoteReply(m) => t' := VoteReplyShadowed(s, t, m);
    case SendAppend(n, peer) => t' := SendShadowed(s, t, n, peer);
    case DeliverAppendCall(m) => t' := AppendShadowed(s, t, m);
    case DeliverAppendReply(m, k) => t' := ReplyShadowed(s, t, m, k);
    case CallFails(n, peer) => t' := CallFailsShadowed(s, t, n, peer);
    case Submit(n, command) => t' := SubmitShadowed(s, t, n, command);
    case Crash(n) => t' := CrashShadowed(s, t, n);
  }

  /** The states of a run and those of its shadow, as far as both go. */
  ghost predicate AreShadows(shadows: seq<Cluster>, run: seq<Cluster>) {
    |shadows| <= |run| && forall i | 0 <= i < |shadows| :: Shadows(shadows[i], run[i])
  }

  lemma ChainGrows(states: seq<Cluster>, s: Cluster)
    requires IsChain(states) && states != [] && Inv(s) && Grows(states[|states| - 1].history, s.history)
    ensures IsChain(states + [s])
  {
    hide Inv, Grows;
    var all, n := states + [s], |states|;
    forall i, j | 0 <= i <= j < |all| ensures Grows(all[i].history, all[j].history) {
      if i < j == n {
        GrowsTransitively(states[i].history, states[n - 1].history, s.history);
      } else if i == n {
        GrowsItself(s.history);
      }
    }
  }

  lemma GrowsItself(h: History)
    ensures Grows(h, h)
  {
  }

  /** Every compacting run has a shadow, in which the invariant holds and the history grows. */
  lemma {:induction false} RunIsShadowed(run: seq<Cluster>, steps: seq<Step>, n: nat) returns (shadows: seq<Cluster>)
    requires IsCompactingRun(run, steps) && n < |run|
    ensures |shadows| == n + 1 && IsChain(shadows) && AreShadows(shadows, run)
    decreases n
  {
    hide Inv, Grows, Shadows, CompactingTransition, Init;
    if n == 0 {
      InitIsShadowed(run[0]);
      GrowsItself(run[0].history);
      shadows := [run[0]];
    } else {
      var before := RunIsShadowed(run, steps, n - 1);
      assert CompactingTransition(run[n - 1], steps[n - 1], run[n - 1 + 1]);
      var t := StepShadowed(run[n - 1], steps[n - 1], run[n], before[n - 1]);
      ChainGrows(before, t);
      shadows := before + [t];
    }
  }

  // ----- The theorems, for nodes that compact -----

  lemma ShadowedNode(run: seq<Cluster>, shadows: seq<Cluster>, i: nat, p: Id)
    requires AreShadows(shadows, run) && i < |shadows| && p in run[i].nodes
    ensures p in shadows[i].nodes
    ensures var u, node := shadows[i].nodes[p], run[i].nodes[p];
            && StandsFor(node, u.log.entries) && node.log.Length() == |u.log.entries|
            && u.role == node.role && u.currentTerm == node.currentTerm && u.commitIndex == node.commitIndex
            && node.lastApplied <= node.commitIndex <= |u.log.entries|
  {
    ShadowOf(run[i], shadows[i], p);
  }

  lemma StoreOfShadow(node: NodeState, full: seq<Entry>)
    requires StandsFor(node, full)
    ensures node.lastApplied <= |full| && node.store == ApplyLog(full[..node.lastApplied])
    ensures forall k: nat | node.log.Holds(k) :: k <= |full| && node.log.At(k) == full[k - 1]
  {
    forall k: nat | node.log.Holds(k) ensures k <= |full| && node.log.At(k) == full[k - 1] {
      RepresentedTerm(node.log, full, k);
    }
  }

  /** Replicas follow one log: of two nodes at any two moments, the one that has applied less has the store
      of a prefix of what the other has applied. */
  lemma StoresFollowOneLog(run: seq<Cluster>, steps: seq<Step>, i: nat, j: nat, p: Id, q: Id) returns (log: seq<Entry>)
    requires IsCompactingRun(run, steps) && i < |run| && j < |run| && p in run[i].nodes && q in run[j].nodes
    requires run[i].nodes[p].lastApplied <= run[j].nodes[q].lastApplied
    ensures |log| == run[j].nodes[q].lastApplied && run[j].nodes[q].store == ApplyLog(log)
    ensures run[i].nodes[p].store == ApplyLog(log[..run[i].nodes[p].lastApplied])
  {
    hide IsCompactingRun, IsChain, AreShadows, StandsFor;
    var shadows := RunIsShadowed(run, steps, |run| - 1);
    ShadowedNode(run, shadows, i, p);
    ShadowedNode(run, shadows, j, q);
    var node, node' := run[i].nodes[p], run[j].nodes[q];
    var full, full' := shadows[i].nodes[p].log.entries, shadows[j].nodes[q].log.entries;
    StoreOfShadow(node, full);
    StoreOfShadow(node', full');
    CommittedAlike(shadows, i, j, p, q, node.lastApplied);
    log := full'[..node'.lastApplied];
    assert log[..node.lastApplied] == full'[..node.lastApplied] == full[..node.lastApplied];
  }

  /** So nodes that have applied equally many entries have the same store. */
  lemma CompactedReplicasAgree(run: seq<Cluster>, steps: seq<Step>, i: nat, j: nat, p: Id, q: Id)
    requires IsCompactingRun(run, steps) && i < |run| && j < |run| && p in run[i].nodes && q in run[j].nodes
    requires run[i].nodes[p].lastApplied == run[j].nodes[q].lastApplied
    ensures run[i].nodes[p].store == run[j].nodes[q].store
  {
    hide IsCompactingRun;
    var log := StoresFollowOneLog(run, steps, i, j, p, q);
    assert log[..|log|] == log;
  }

  /** Applied entries that two nodes still store at an index are the same. */
  lemma CompactedStateMachineSafety(run: seq<Cluster>, steps: seq<Step>, i: nat, j: nat, p: Id, q: Id, k: nat)
    requires IsCompactingRun(run, steps) && i < |run| && j < |run| && p in run[i].nodes && q in run[j].nodes
    requires k <= run[i].nodes[p].lastApplied && k <= run[j].nodes[q].lastApplied
    requires run[i].nodes[p].log.Holds(k) && run[j].nodes[q].log.Holds(k)
    ensures run[i].nodes[p].log.At(k) == run[j].nodes[q].log.At(k)
  {
    hide IsCompactingRun, IsChain, AreShadows, StandsFor;
    var shadows := RunIsShadowed(run, steps, |run| - 1);
    ShadowedNode(run, shadows, i, p);
    ShadowedNode(run, shadows, j, q);
    StoreOfShadow(run[i].nodes[p], shadows[i].nodes[p].log.entries);
    StoreOfShadow(run[j].nodes[q], shadows[j].nodes[q].log.entries);
    CommittedAlike(shadows, i, j, p, q, k);
    AgreeAt(shadows[i].nodes[p].log.entries, shadows[j].nodes[q].log.entries, k, k - 1);
  }

  lemma CompactedElectionSafety(run: seq<Cluster>, steps: seq<Step>, i: nat, j: nat, p: Id, q: Id)
    requires IsCompactingRun(run, steps) && i < |run| && j < |run| && p in run[i].nodes && q in run[j].nodes
    requires run[i].nodes[p].role == Leader && run[j].nodes[q].role == Leader
    requires run[i].nodes[p].currentTerm == run[j].nodes[q].currentTerm
    ensures p == q
  {
    hide IsCompactingRun, IsChain, AreShadows, StandsFor;
    var shadows := RunIsShadowed(run, steps, |run| - 1);
    ShadowedNode(run, shadows, i, p);
    ShadowedNode(run, shadows, j, q);
    OneLeaderPerTerm(shadows, i, j, p, q);
  }

  /** A leader of a later term reaches as far as what a node has committed, and has the same entries as far
      as both still store them. */
  lemma CompactedLeadersHaveCommitted(run: seq<Cluster>, steps: seq<Step>, i: nat, j: nat, p: Id, q: Id, k: nat)
    requires IsCompactingRun(run, steps) && i < |run| && j < |run| && p in run[i].nodes && q in run[j].nodes
    requires run[j].nodes[q].role == Leader && run[j].nodes[q].currentTerm > run[i].nodes[p].currentTerm
    ensures run[i].nodes[p].commitIndex <= run[j].nodes[q].log.Length()
    ensures var a, b := run[i].nodes[p].log, run[j].nodes[q].log;
            k <= run[i].nodes[p].commitIndex && a.Holds(k) && b.Holds(k) ==> a.At(k) == b.At(k)
  {
    hide IsCompactingRun, IsChain, AreShadows, StandsFor;
    var shadows := RunIsShadowed(run, steps, |run| - 1);
    ShadowedNode(run, shadows, i, p);
    ShadowedNode(run, shadows, j, q);
    StoreOfShadow(run[i].nodes[p], shadows[i].nodes[p].log.entries);
    StoreOfShadow(run[j].nodes[q], shadows[j].nodes[q].log.entries);
    LeaderHasCommitted(shadows, i, j, p, q);
    if 0 < k <= run[i].nodes[p].commitIndex {
      AgreeAt(shadows[j].nodes[q].log.entries, shadows[i].nodes[p].log.entries, run[i].nodes[p].commitIndex, k - 1);
    }
  }
}
