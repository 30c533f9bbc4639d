/** What holds in every run of a Raft cluster: election safety, log matching, leader completeness
    and state machine safety, across nodes and across time. */
module RaftSafety {
  import opened Wrappers
  import opened RaftLogs
  import opened RaftNodes
  import opened RaftCluster
  import opened RaftInvariants
  import opened RaftFrame
  import opened RaftCompleteness
  import opened RaftSteps
  import opened RaftReplication

  lemma InitKeepsInv(s: Cluster)
    requires Init(s)
    ensures Inv(s)
  {
  }

  lemma StepKeepsInv(s: Cluster, step: Step)
    requires Inv(s) && Enabled(s, step) && RepliesInTerm(s, step) && NoCompaction(After(s, step))
    ensures Inv(After(s, step))
  {
    hide Inv, After, Enabled, RepliesInTerm, NoCompaction;
    match step
    case Timeout(n) => TimeoutStep(s, n);
    case DeliverVoteCall(m) => VoteCallStep(s, m);
    case DeliverVoteReply(m) => VoteReplyStep(s, m);
    case SendAppend(n, peer) => SendAppendStep(s, n, peer);
    case DeliverAppendCall(m) => AppendCallStep(s, m);
    case DeliverAppendReply(m, k) => AppendReplyStep(s, m, k);
    case CallFails(n, peer) => CallFailsStep(s, n, peer);
    case Submit(n, command) => SubmitStep(s, n, command);
    case Crash(n) => CrashStep(s, n);
  }

  /** The invariant holds in every state of every run. */
  lemma {:induction false} RunsKeepInv(run: seq<Cluster>, steps: seq<Step>, i: nat)
    requires IsRun(run, steps) && i < |run|
    ensures Inv(run[i])
    decreases i
  {
    if i == 0 {
      InitKeepsInv(run[0]);
    } else {
      RunsKeepInv(run, steps, i - 1);
      assert Transition(run[i - 1], steps[i - 1], run[i]);
      StepKeepsInv(run[i - 1], steps[i - 1]);
    }
  }

  lemma StepKeepsSent(s: Cluster, step: Step)
    requires Enabled(s, step)
    ensures After(s, step).servers == s.servers && s.sent <= After(s, step).sent
  {
    hide HandleRequestVote, HandleAppendEntries, OnVoteReply, OnAppendReply, StartElection, SubmitCommand, Restart,
      AppendRequestOf, RecordApplications, RecordElection, RecordGrant, Enabled;
  }

  lemma BallotStepGrows(s: Cluster, step: Step)
    requires Enabled(s, step) && (step.Timeout? || step.DeliverVoteCall?)
    ensures Grows(s.history, After(s, step).history)
  {
    hide HandleRequestVote, StartElection;
  }

  lemma ReplicationStepGrows(s: Cluster, step: Step)
    requires Enabled(s, step) && (step.DeliverAppendCall? || step.DeliverAppendReply?)
    ensures Grows(s.history, After(s, step).history)
  {
    hide HandleAppendEntries, OnAppendReply, Applications, IsMajorityMatch, CommitQuorum;
  }

  lemma SilentStepGrows(s: Cluster, step: Step)
    requires Enabled(s, step) && (step.SendAppend? || step.CallFails? || step.Crash?)
    ensures Grows(s.history, After(s, step).history)
  {
    hide OnAppendReply, Restart, AppendRequestOf;
  }

  lemma SubmitGrows(s: Cluster, n: Id, command: Command)
    requires Enabled(s, Submit(n, command)) && NodeOk(s.history, s.servers, n, s.nodes[n])
    ensures Grows(s.history, After(s, Submit(n, command)).history)
  {
  }

  lemma StepGrows(s: Cluster, step: Step)
    requires Inv(s) && Enabled(s, step) && RepliesInTerm(s, step)
    ensures After(s, step).servers == s.servers
    ensures Grows(s.history, After(s, step).history)
    ensures s.sent <= After(s, step).sent
  {
    hide NodesOk, ElectionsOk, GrantsOk, AcksOk, OutcomesOk, MessagesOk, After, RepliesInTerm, Grows;
    StepKeepsSent(s, step);
    match step
    case DeliverVoteReply(m) => VoteReplyGrows(s, m);
    case Submit(n, command) =>
      InvNode(s, n);
      SubmitGrows(s, n, command);
    case Timeout(_) => BallotStepGrows(s, step);
    case DeliverVoteCall(_) => BallotStepGrows(s, step);
    case DeliverAppendCall(_) => ReplicationStepGrows(s, step);
    case DeliverAppendReply(_, _) => ReplicationStepGrows(s, step);
    case _ => SilentStepGrows(s, step);
  }

  lemma VoteReplyGrows(s: Cluster, m: Message)
    requires Inv(s) && Enabled(s, DeliverVoteReply(m)) && RepliesInTerm(s, DeliverVoteReply(m))
    ensures Grows(s.history, After(s, DeliverVoteReply(m)).history)
  {
    hide Inv, OnVoteReply;
    if s.nodes[m.to].role == Candidate && After(s, DeliverVoteReply(m)).nodes[m.to].role == Leader {
      WinningVotes(s, m);
    }
  }

  /** Along a run history only grows, and messages are never taken back. */
  lemma {:induction false} RunsGrow(run: seq<Cluster>, steps: seq<Step>, i: nat, j: nat)
    requires IsRun(run, steps) && i <= j < |run|
    ensures run[i].servers == run[j].servers
    ensures Grows(run[i].history, run[j].history)
    ensures run[i].sent <= run[j].sent
    decreases j
  {
    hide Inv, After, RepliesInTerm, Enabled;
    if i < j {
      RunsGrow(run, steps, i, j - 1);
      RunsKeepInv(run, steps, j - 1);
      assert Transition(run[j - 1], steps[j - 1], run[j]);
      StepGrows(run[j - 1], steps[j - 1]);
      GrowsTransitively(run[i].history, run[j - 1].history, run[j].history);
    }
  }

  lemma GrowsTransitively(a: History, b: History, c: History)
    requires Grows(a, b) && Grows(b, c)
    ensures Grows(a, c)
  {
  }

  // ----- The theorems, first for states in which the invariant holds and whose history grows -----

  ghost predicate IsChain(states: seq<Cluster>) {
    && (forall i | 0 <= i < |states| :: Inv(states[i]))
    && forall i, j | 0 <= i <= j < |states| :: Grows(states[i].history, states[j].history)
  }

  lemma RunIsChain(run: seq<Cluster>, steps: seq<Step>)
    requires IsRun(run, steps)
    ensures IsChain(run)
  {
    hide Inv, Grows, IsRun;
    forall i | 0 <= i < |run| ensures Inv(run[i]) {
      RunsKeepInv(run, steps, i);
    }
    forall i, j | 0 <= i <= j < |run| ensures Grows(run[i].history, run[j].history) {
      RunsGrow(run, steps, i, j);
    }
  }

  /** A node, with the facts the theorems need, seen from a later state's history. */
  lemma NodeSeenLater(states: seq<Cluster>, i: nat, j: nat, p: Id)
    requires IsChain(states) && i <= j < |states| && p in states[i].nodes
    ensures p in states[i].servers && NodeOk(states[i].history, states[i].servers, p, states[i].nodes[p])
    ensures var node, h := states[i].nodes[p], states[j].history;
            LogOk(h, node.log.entries) && CommittedPrefix(h, node.log.entries, node.commitIndex, node.currentTerm)
    ensures Inv(states[j]) && Grows(states[i].history, states[j].history)
  {
    hide ElectionsOk, GrantsOk, AcksOk, OutcomesOk, MessagesOk, LogOk;
    assert Inv(states[i]) && Inv(states[j]);
    InvNode(states[i], p);
    var node := states[i].nodes[p];
    LogOkGrows(states[i].history, states[j].history, node.log.entries);
    CommittedPrefixGrows(states[i].history, states[j].history, node.log.entries, node.commitIndex,
                         node.currentTerm, node.currentTerm);
  }

  function Later(i: nat, j: nat): nat {
    if i <= j then j else i
  }

  lemma CommittedShorter(h: History, log: seq<Entry>, n: nat, term: nat, k: nat)
    requires CommittedPrefix(h, log, n, term) && k <= n
    ensures CommittedPrefix(h, log, k, term)
  {
    if k > 0 {
      var c :| c in h.commits && CoveredBy(h, log, n, term, c);
      AgreeShorter(log, h.logs[c.term], n, k);
      assert CoveredBy(h, log, k, term, c);
    }
  }

  /** What two nodes have both committed, they have alike. */
  lemma CommittedAlike(states: seq<Cluster>, i: nat, j: nat, p: Id, q: Id, k: nat)
    requires IsChain(states) && i < |states| && j < |states| && p in states[i].nodes && q in states[j].nodes
    requires k <= states[i].nodes[p].commitIndex && k <= states[j].nodes[q].commitIndex
    ensures Agree(states[i].nodes[p].log.entries, states[j].nodes[q].log.entries, k)
  {
    hide ElectionsOk, GrantsOk, AcksOk, OutcomesOk, MessagesOk, LogOk, CommittedPrefix, Inv, IsChain;
    var m := Later(i, j);
    NodeSeenLater(states, i, m, p);
    NodeSeenLater(states, j, m, q);
    var a, b := states[i].nodes[p], states[j].nodes[q];
    CommittedShorter(states[m].history, a.log.entries, a.commitIndex, a.currentTerm, k);
    CommittedShorter(states[m].history, b.log.entries, b.commitIndex, b.currentTerm, k);
    CommittedPrefixesAgree(states[m], a.log.entries, k, a.currentTerm, b.log.entries, k, b.currentTerm);
  }

  lemma OneLeaderPerTerm(states: seq<Cluster>, i: nat, j: nat, p: Id, q: Id)
    requires IsChain(states) && i < |states| && j < |states| && p in states[i].nodes && q in states[j].nodes
    requires states[i].nodes[p].role == Leader && states[j].nodes[q].role == Leader
    requires states[i].nodes[p].currentTerm == states[j].nodes[q].currentTerm
    ensures p == q
  {
    hide ElectionsOk, GrantsOk, AcksOk, OutcomesOk, MessagesOk, LogOk, CommittedPrefix, Inv, IsChain;
    NodeSeenLater(states, i, Later(i, j), p);
    NodeSeenLater(states, j, Later(i, j), q);
    LeaderPart(states[i].history, states[i].servers, p, states[i].nodes[p]);
    LeaderPart(states[j].history, states[j].servers, q, states[j].nodes[q]);
  }

  lemma LeaderHasCommitted(states: seq<Cluster>, i: nat, j: nat, p: Id, q: Id)
    requires IsChain(states) && i < |states| && j < |states| && p in states[i].nodes && q in states[j].nodes
    requires states[j].nodes[q].role == Leader && states[j].nodes[q].currentTerm > states[i].nodes[p].currentTerm
    ensures Agree(states[j].nodes[q].log.entries, states[i].nodes[p].log.entries, states[i].nodes[p].commitIndex)
  {
    hide ElectionsOk, GrantsOk, AcksOk, MessagesOk, LogOk, IsChain, Inv, OutcomesOk;
    var m := Later(i, j);
    NodeSeenLater(states, i, m, p);
    NodeSeenLater(states, j, m, q);
    var a, b, h := states[i].nodes[p], states[j].nodes[q], states[m].history;
    LeaderPart(states[j].history, states[j].servers, q, b);
    ElectedLogIsPrefix(states, j, q);
    var t, k := b.currentTerm, a.commitIndex;
    if k > 0 {
      var c :| c in h.commits && CoveredBy(h, a.log.entries, k, a.currentTerm, c);
      CommitIsOk(states[m], c);
      LeaderCompleteness(states[m], c, t);
      var e := h.elections[t].log;
      AgreeChain(b.log.entries, e, h.logs[c.term], |e|, c.index);
      AgreeShorter(b.log.entries, h.logs[c.term], c.index, k);
    }
  }

  lemma CommitIsOk(s: Cluster, c: Commit)
    requires Inv(s) && c in s.history.commits
    ensures CommitOk(s.history, s.servers, c)
  {
    hide NodesOk, ElectionsOk, GrantsOk, AcksOk, MessagesOk;
  }

  lemma ElectedLogIsPrefix(states: seq<Cluster>, j: nat, q: Id)
    requires IsChain(states) && j < |states| && q in states[j].nodes && states[j].nodes[q].role == Leader
    ensures var b := states[j].nodes[q];
            && b.currentTerm in states[j].history.elections
            && var e := states[j].history.elections[b.currentTerm].log;
               Agree(b.log.entries, e, |e|)
  {
    hide NodesOk, GrantsOk, AcksOk, OutcomesOk, MessagesOk, ElectionsOk, LogOk, IsChain;
    NodeSeenLater(states, j, j, q);
    InvLeader(states[j], q);
    var e := states[j].history.elections[states[j].nodes[q].currentTerm].log;
    assert states[j].nodes[q].log.entries[..|e|] == e;
  }

  // ----- The theorems. States, nodes and indices are arbitrary. -----

  /** State machine safety: whatever any two nodes have applied at any two moments of a run, they
      applied the same entry at the same index. */
  lemma StateMachineSafety(run: seq<Cluster>, steps: seq<Step>, i: nat, j: nat, p: Id, q: Id, k: nat)
    requires IsRun(run, steps) && i < |run| && j < |run|
    requires p in run[i].nodes && q in run[j].nodes
    requires 1 <= k <= run[i].nodes[p].lastApplied && k <= run[j].nodes[q].lastApplied
    ensures var a, b := run[i].nodes[p].log, run[j].nodes[q].log;
            a.Holds(k) && b.Holds(k) && a.At(k) == b.At(k)
  {
    hide ElectionsOk, GrantsOk, AcksOk, OutcomesOk, MessagesOk, LogOk, CommittedPrefix, Inv, IsRun, IsChain;
    RunIsChain(run, steps);
    NodeSeenLater(run, i, i, p);
    NodeSeenLater(run, j, j, q);
    CommittedAlike(run, i, j, p, q, k);
    AgreeAt(run[i].nodes[p].log.entries, run[j].nodes[q].log.entries, k, k - 1);
  }

  /** Replicas agree: nodes that have applied equally many entries have the same store. */
  lemma ReplicasAgree(run: seq<Cluster>, steps: seq<Step>, i: nat, j: nat, p: Id, q: Id)
    requires IsRun(run, steps) && i < |run| && j < |run|
    requires p in run[i].nodes && q in run[j].nodes
    requires run[i].nodes[p].lastApplied == run[j].nodes[q].lastApplied
    ensures run[i].nodes[p].store == run[j].nodes[q].store
  {
    hide ElectionsOk, GrantsOk, AcksOk, OutcomesOk, MessagesOk, LogOk, CommittedPrefix, Inv, IsRun, IsChain;
    RunIsChain(run, steps);
    NodeSeenLater(run, i, i, p);
    NodeSeenLater(run, j, j, q);
    CommittedAlike(run, i, j, p, q, run[i].nodes[p].lastApplied);
  }

  /** Election safety: no term has two leaders, at whatever moments they lead. */
  lemma ElectionSafety(run: seq<Cluster>, steps: seq<Step>, i: nat, j: nat, p: Id, q: Id)
    requires IsRun(run, steps) && i < |run| && j < |run|
    requires p in run[i].nodes && q in run[j].nodes
    requires run[i].nodes[p].role == Leader && run[j].nodes[q].role == Leader
    requires run[i].nodes[p].currentTerm == run[j].nodes[q].currentTerm
    ensures p == q
  {
    hide IsRun, IsChain;
    RunIsChain(run, steps);
    OneLeaderPerTerm(run, i, j, p, q);
  }

  /** A message that shows for whom a node voted in a term: a granted vote, or a candidate's request,
      which it sends after voting for itself. */
  predicate ShowsVote(m: Message, voter: Id, term: nat, candidate: Id) {
    || (m.VoteReply? && m.granted && m.from == voter && m.requestTerm == term && m.to == candidate)
    || (m.VoteCall? && m.vote.candidate == voter == candidate && m.vote.term == term)
  }

  /** A node votes for at most one candidate in a term, itself included, over crashes and restarts. */
  lemma OneVotePerTerm(run: seq<Cluster>, steps: seq<Step>, i: nat, a: Message, b: Message, voter: Id, term: nat,
      p: Id, q: Id)
    requires IsRun(run, steps) && i < |run|
    requires a in run[i].sent && b in run[i].sent && ShowsVote(a, voter, term, p) && ShowsVote(b, voter, term, q)
    ensures p == q
  {
    hide NodesOk, ElectionsOk, GrantsOk, AcksOk, OutcomesOk, IsRun;
    RunsKeepInv(run, steps, i);
    InvMessage(run[i], a);
    InvMessage(run[i], b);
  }

  /** Log matching, across nodes and time. */
  lemma LogsMatch(run: seq<Cluster>, steps: seq<Step>, i: nat, j: nat, p: Id, q: Id, k: nat)
    requires IsRun(run, steps) && i < |run| && j < |run|
    requires p in run[i].nodes && q in run[j].nodes
    requires run[i].nodes[p].log.Holds(k) && run[j].nodes[q].log.Holds(k)
    requires run[i].nodes[p].log.At(k).term == run[j].nodes[q].log.At(k).term
    ensures run[i].nodes[p].log.entries[..k] == run[j].nodes[q].log.entries[..k]
  {
    hide ElectionsOk, GrantsOk, AcksOk, OutcomesOk, MessagesOk, LogOk, CommittedPrefix, Inv, IsRun, IsChain;
    RunIsChain(run, steps);
    NodeSeenLater(run, i, Later(i, j), p);
    NodeSeenLater(run, j, Later(i, j), q);
    LogMatching(run[Later(i, j)].history, run[i].nodes[p].log.entries, run[j].nodes[q].log.entries, k - 1);
  }

  /** Leader completeness: what any node has committed by any moment is in the log of every leader
      of a later term, from its election on. */
  lemma LeadersHaveCommitted(run: seq<Cluster>, steps: seq<Step>, i: nat, j: nat, p: Id, q: Id)
    requires IsRun(run, steps) && i < |run| && j < |run|
    requires p in run[i].nodes && q in run[j].nodes
    requires run[j].nodes[q].role == Leader && run[j].nodes[q].currentTerm > run[i].nodes[p].currentTerm
    ensures Agree(run[j].nodes[q].log.entries, run[i].nodes[p].log.entries, run[i].nodes[p].commitIndex)
  {
    hide IsRun, IsChain;
    RunIsChain(run, steps);
    LeaderHasCommitted(run, i, j, p, q);
  }

  /** The commit index a leader ships never exceeds what it ships, so a follower that has just
      checked and merged the entries commits nothing it has not compared with the leader. */
  lemma ShippedCommitIsCovered(run: seq<Cluster>, steps: seq<Step>, i: nat, m: Message)
    requires IsRun(run, steps) && i < |run| && m in run[i].sent && m.AppendCall?
    ensures m.append.leaderCommit <= m.append.prevIndex + |m.append.entries|
    ensures m.to in run[i].nodes && HandleAppendEntriesAccepts(run[i].nodes[m.to], m.append) ==>
              var log' := MergeEntries(run[i].nodes[m.to].log, m.append.prevIndex, m.append.entries);
              m.append.leaderCommit <= |log'.entries|
              && m.append.term in run[i].history.logs
              && Agree(log'.entries, run[i].history.logs[m.append.term], m.append.leaderCommit)
  {
    hide NodesOk, ElectionsOk, GrantsOk, AcksOk, OutcomesOk, MessagesOk, IsRun;
    RunsKeepInv(run, steps, i);
    InvMessage(run[i], m);
    if m.to in run[i].nodes && HandleAppendEntriesAccepts(run[i].nodes[m.to], m.append) {
      RunIsChain(run, steps);
      NodeSeenLater(run, i, i, m.to);
      AcceptedEntries(run[i], m);
      AgreeShorter(MergeEntries(run[i].nodes[m.to].log, m.append.prevIndex, m.append.entries).entries,
                   run[i].history.logs[m.append.term], m.append.prevIndex + |m.append.entries|, m.append.leaderCommit);
    }
  }

  predicate HandleAppendEntriesAccepts(node: NodeState, r: AppendRequest) {
    r.term >= node.currentTerm && node.log.Matches(r.prevIndex, r.prevTerm)
  }

  /** No step truncates or rewrites an entry at or below a node's commit index. */
  lemma CommittedEntriesStay(run: seq<Cluster>, steps: seq<Step>, i: nat, p: Id)
    requires IsRun(run, steps) && i + 1 < |run| && p in run[i].nodes
    ensures p in run[i + 1].nodes
    ensures Agree(run[i + 1].nodes[p].log.entries, run[i].nodes[p].log.entries, run[i].nodes[p].commitIndex)
  {
    hide ElectionsOk, GrantsOk, AcksOk, OutcomesOk, MessagesOk, LogOk, Inv, CommittedPrefix;
    assert Transition(run[i], steps[i], run[i + 1]);
    RunIsChain(run, steps);
    NodeSeenLater(run, i, i, p);
    StepKeepsCommitted(run[i], steps[i], p);
  }

  lemma StepKeepsCommitted(s: Cluster, step: Step, p: Id)
    requires Inv(s) && Enabled(s, step) && RepliesInTerm(s, step) && NoCompaction(After(s, step))
    requires p in s.nodes && StoreOk(s.nodes[p])
    ensures p in After(s, step).nodes
    ensures Agree(After(s, step).nodes[p].log.entries, s.nodes[p].log.entries, s.nodes[p].commitIndex)
  {
    hide Inv, IsMajorityMatch, HandleRequestVote, OnVoteReply, RecordElection, HandleAppendEntries, RecordApplications;
    if p == step.Actor() {
      match step
      case DeliverAppendCall(m) =>
        assert After(s, step).nodes[p].log.lastIncludedIndex == 0;
        FollowerKeepsCommitted(s, m);
      case DeliverAppendReply(m, k) =>
        LeaderKeepsLog(s, m, k);
      case DeliverVoteCall(m) =>
        RequestVoteShape(s.nodes[p], m.vote);
      case DeliverVoteReply(m) =>
        VoteReplyKeepsLog(s.nodes[p], s.ConfigOf(p), m.from, m.requestTerm, m.replyTerm, m.granted);
      case _ =>
    }
  }

  lemma VoteReplyKeepsLog(node: NodeState, c: Config, peer: Id, requestTerm: nat, replyTerm: nat, granted: bool)
    ensures OnVoteReply(node, c, peer, requestTerm, replyTerm, granted).log == node.log
  {
  }

  lemma FollowerKeepsCommitted(s: Cluster, m: Message)
    requires m.AppendCall? && m in s.sent && m.to in s.servers && m.to in s.nodes
    requires s.nodes[m.to].log.lastIncludedIndex <= s.nodes[m.to].lastApplied && StoreOk(s.nodes[m.to])
    requires HandleAppendEntries(s.nodes[m.to], m.append, s.snapshotInterval).0.log.lastIncludedIndex == 0
    requires Inv(s)
    ensures Agree(HandleAppendEntries(s.nodes[m.to], m.append, s.snapshotInterval).0.log.entries,
                  s.nodes[m.to].log.entries, s.nodes[m.to].commitIndex)
  {
    hide Inv, Accepts, CommittedPrefix, FollowsUp, HandleAppendEntries;
    if HandleAppendEntries(s.nodes[m.to], m.append, s.snapshotInterval).1 {
      Acceptance(s, m);
    } else {
      RefusedKeepsLog(s.nodes[m.to], m.append, s.snapshotInterval);
    }
  }

  lemma RefusedKeepsLog(node: NodeState, r: AppendRequest, interval: nat)
    requires node.log.lastIncludedIndex <= node.lastApplied
    requires !HandleAppendEntries(node, r, interval).1
    ensures HandleAppendEntries(node, r, interval).0.log == node.log
  {
  }

  lemma LeaderKeepsLog(s: Cluster, m: Message, k: nat)
    requires Enabled(s, DeliverAppendReply(m, k)) && StoreOk(s.nodes[m.to])
    requires NoCompaction(After(s, DeliverAppendReply(m, k)))
    ensures After(s, DeliverAppendReply(m, k)).nodes[m.to].log == s.nodes[m.to].log
  {
    hide IsMajorityMatch;
    var node := s.nodes[m.to];
    assert After(s, DeliverAppendReply(m, k)).nodes[m.to].log.lastIncludedIndex == 0;
    if m.replyTerm <= node.currentTerm && node.role == Leader && m.success && m.count > 0 {
      CommitKeepsLog(RecordMatch(node, m.from, m.prevIndex + m.count), s.ConfigOf(m.to), k);
    }
  }
}
