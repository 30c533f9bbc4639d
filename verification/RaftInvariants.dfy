/** What every reachable state of a Raft cluster satisfies, stated element by element: for each
    node, election, ballot, acknowledgement, commit and message. */
module RaftInvariants {
  import opened Wrappers
  import opened RaftLogs
  import opened RaftNodes
  import opened RaftCluster

  /** Both logs reach `n` and agree up to there. */
  ghost predicate Agree(a: seq<Entry>, b: seq<Entry>, n: nat) {
    n <= |a| && n <= |b| && a[..n] == b[..n]
  }

  /** Up to its entry `i`, a log is the log of the leader that created that entry. */
  ghost predicate EntryOk(h: History, log: seq<Entry>, i: nat)
    requires i < |log|
  {
    log[i].term in h.logs && Agree(log, h.logs[log[i].term], i + 1)
  }

  ghost predicate LogOk(h: History, log: seq<Entry>) {
    forall i | 0 <= i < |log| :: EntryOk(h, log, i)
  }

  ghost predicate TermsUpTo(log: seq<Entry>, term: nat) {
    forall i | 0 <= i < |log| :: log[i].term <= term
  }

  /** The leader of `t` started with the first `n` entries of the leader of `t0`. */
  ghost predicate Inherits(h: History, t: nat, t0: nat, n: nat)
    requires t in h.elections
  {
    t0 in h.logs && Agree(h.elections[t].log, h.logs[t0], n)
  }

  /** So did every leader elected after `t0`, up to term `until`. */
  ghost predicate Carried(h: History, t0: nat, n: nat, until: int) {
    forall t | t in h.elections && t0 < t <= until :: Inherits(h, t, t0, n)
  }

  /** The first `n` entries of a log were committed in some term up to `term`. */
  ghost predicate CommittedPrefix(h: History, log: seq<Entry>, n: nat, term: nat) {
    n == 0 || exists c :: c in h.commits && CoveredBy(h, log, n, term, c)
  }

  ghost predicate CoveredBy(h: History, log: seq<Entry>, n: nat, term: nat, c: Commit) {
    c.term <= term && n <= c.index && c.term in h.logs && Agree(log, h.logs[c.term], n)
  }

  ghost predicate Granted(h: History, voter: Id, term: nat, candidate: Id) {
    Ballot(voter, term) in h.grants && h.grants[Ballot(voter, term)].candidate == candidate
  }

  function LastTerm(log: seq<Entry>): nat {
    TermOf(log, |log|)
  }

  predicate AtLeastAsFresh(log: seq<Entry>, other: seq<Entry>) {
    UpToDate(|log|, LastTerm(log), |other|, LastTerm(other))
  }

  ghost predicate LeaderOk(h: History, servers: set<Id>, n: Id, s: NodeState) {
    var t := s.currentTerm;
    && t in h.elections && h.elections[t].leader == n
    && t in h.logs && h.logs[t] == s.log.entries
    && Ack(n, t, |s.log.entries|) in h.acks
    && s.matchIndex.Keys == servers - {n}
    && (forall p | p in s.matchIndex :: s.matchIndex[p] == 0 || Ack(p, t, s.matchIndex[p]) in h.acks)
    && (forall p | p in s.nextIndex :: 1 <= s.nextIndex[p] <= |s.log.entries| + 1)
  }

  /** Nothing was compacted, and the store is what the applied entries make of it. */
  ghost predicate StoreOk(s: NodeState) {
    && s.log.lastIncludedIndex == 0 && s.log.lastIncludedTerm == 0 && s.snapshot == None
    && s.lastApplied <= s.commitIndex <= |s.log.entries|
    && s.store == ApplyLog(s.log.entries[..s.lastApplied])
  }

  ghost predicate PeersOk(h: History, servers: set<Id>, n: Id, s: NodeState) {
    && s.matchIndex.Keys <= servers - {n}
    && s.nextIndex.Keys <= servers - {n}
    && (s.role == Leader ==> LeaderOk(h, servers, n, s))
  }

  /** Every vote a node has counted was cast for it. */
  ghost predicate VotesOk(h: History, servers: set<Id>, n: Id, votes: map<nat, set<Id>>) {
    forall t | t in votes :: BallotsOk(h, servers, n, t, votes[t])
  }

  ghost predicate BallotsOk(h: History, servers: set<Id>, n: Id, t: nat, voters: set<Id>) {
    forall v | v in voters :: v in servers && Granted(h, v, t, n)
  }

  ghost predicate NodeLogOk(h: History, s: NodeState) {
    && LogOk(h, s.log.entries)
    && TermsUpTo(s.log.entries, s.currentTerm)
    && CommittedPrefix(h, s.log.entries, s.commitIndex, s.currentTerm)
  }

  ghost predicate NodeOk(h: History, servers: set<Id>, n: Id, s: NodeState) {
    StoreOk(s) && NodeLogOk(h, s) && PeersOk(h, servers, n, s) && VotesOk(h, servers, n, s.votes)
  }

  ghost predicate Majority(servers: set<Id>, quorum: set<Id>) {
    quorum <= servers && |quorum| > |servers| / 2
  }

  ghost predicate ElectionOk(h: History, servers: set<Id>, t: nat)
    requires t in h.elections
  {
    var e := h.elections[t];
    && e.leader in servers
    && Majority(servers, e.quorum)
    && (forall v | v in e.quorum :: Granted(h, v, t, e.leader) && AtLeastAsFresh(e.log, h.grants[Ballot(v, t)].log))
    && LogOk(h, e.log)
    && (forall i | 0 <= i < |e.log| :: e.log[i].term < t)
  }

  /** A term's log is the leader's log at its election followed by entries of that term. */
  ghost predicate TermLogOk(h: History, t: nat)
    requires t in h.logs
  {
    && t in h.elections
    && LogOk(h, h.logs[t])
    && h.elections[t].log <= h.logs[t]
    && (forall i | |h.elections[t].log| <= i < |h.logs[t]| :: h.logs[t][i].term == t)
  }

  ghost predicate TermLeaderOk(s: Cluster, t: nat)
    requires t in s.history.elections
  {
    var l := s.history.elections[t].leader;
    && l in s.nodes
    && s.nodes[l].currentTerm >= t
    && (s.nodes[l].currentTerm == t ==> s.nodes[l].role != Candidate)
  }

  ghost predicate GrantOk(s: Cluster, b: Ballot)
    requires b in s.history.grants
  {
    var g := s.history.grants[b];
    && b.voter in s.nodes && g.candidate in s.nodes
    && s.nodes[b.voter].currentTerm >= b.term
    && (s.nodes[b.voter].currentTerm == b.term ==> s.nodes[b.voter].votedFor == Some(g.candidate))
    && s.nodes[g.candidate].currentTerm >= b.term
    && LogOk(s.history, g.log)
    && (Pending(s, g.candidate, b.term) ==> AtLeastAsFresh(s.nodes[g.candidate].log.entries, g.log))
  }

  /** The node is still waiting for the outcome of its election of term `t`. */
  ghost predicate Pending(s: Cluster, n: Id, t: nat)
    requires n in s.nodes
  {
    s.nodes[n].currentTerm == t && s.nodes[n].role == Candidate && t !in s.history.elections
  }

  /** As long as later leaders carry what was acknowledged, so does the node itself. */
  ghost predicate AckOk(h: History, servers: set<Id>, a: Ack, s: NodeState) {
    && a.node in servers
    && a.term in h.logs && a.length <= |h.logs[a.term]|
    && a.term <= s.currentTerm
    && forall n | 0 <= n <= a.length && Carried(h, a.term, n, s.currentTerm) :: Agree(s.log.entries, h.logs[a.term], n)
  }

  /** An acknowledgement precedes every later ballot of the same node that decided an election:
      the ballot was cast on a log that still had what was acknowledged. */
  ghost predicate AckBeforeBallot(h: History, a: Ack, b: Ballot)
    requires b in h.grants
  {
    a.node == b.voter && a.term < b.term && (b.term in h.elections ==> b.voter in h.elections[b.term].quorum) ==>
      a.term in h.logs
      && forall n | 0 <= n <= a.length && Carried(h, a.term, n, b.term - 1) :: Agree(h.grants[b].log, h.logs[a.term], n)
  }

  ghost predicate CommitOk(h: History, servers: set<Id>, c: Commit) {
    && c.term in h.logs
    && 1 <= c.index <= |h.logs[c.term]|
    && h.logs[c.term][c.index - 1].term == c.term
    && Majority(servers, c.quorum)
    && forall v | v in c.quorum :: AckedTo(h, v, c.term, c.index)
  }

  ghost predicate AckedTo(h: History, v: Id, t: nat, n: nat) {
    exists a :: a in h.acks && a.node == v && a.term == t && n <= a.length
  }

  ghost predicate ApplicationOk(h: History, a: Application) {
    && 1 <= a.index
    && exists c :: c in h.commits && a.index <= c.index && c.term in h.logs
                   && a.index <= |h.logs[c.term]| && h.logs[c.term][a.index - 1] == a.entry
  }

  ghost predicate LeadershipOk(h: History, n: Id, t: nat) {
    t in h.elections && h.elections[t].leader == n
  }

  ghost predicate MessageOk(s: Cluster, m: Message) {
    var h := s.history;
    match m
    case VoteCall(to, r) =>
      && r.candidate in s.nodes
      && Granted(h, r.candidate, r.term, r.candidate)
      && s.nodes[r.candidate].currentTerm >= r.term
      && (Pending(s, r.candidate, r.term) ==>
            r.lastLogIndex == |s.nodes[r.candidate].log.entries|
                && r.lastLogTerm == LastTerm(s.nodes[r.candidate].log.entries))
    case VoteReply(from, to, t, _, granted) =>
      granted ==> from in s.servers && Granted(h, from, t, to)
    case AppendCall(to, r) =>
      && r.term in h.elections && r.leader == h.elections[r.term].leader && r.leader != to
      && r.term in h.logs
      && r.prevIndex + |r.entries| <= |h.logs[r.term]|
      && r.entries == h.logs[r.term][r.prevIndex..r.prevIndex + |r.entries|]
      && r.prevTerm == TermOf(h.logs[r.term], r.prevIndex)
      && r.leaderCommit <= r.prevIndex + |r.entries|
      && CommittedPrefix(h, h.logs[r.term], r.leaderCommit, r.term)
    case AppendReply(from, to, t, prev, count, _, success) =>
      success ==> from in s.servers && from != to && Ack(from, t, prev + count) in h.acks
                  && t in h.elections && h.elections[t].leader == to
  }

  ghost predicate NodesOk(s: Cluster) {
    s.nodes.Keys == s.servers && forall n | n in s.nodes :: NodeOk(s.history, s.servers, n, s.nodes[n])
  }

  ghost predicate ElectionsOk(s: Cluster) {
    && (forall t | t in s.history.elections ::
        t in s.history.logs && ElectionOk(s.history, s.servers, t) && TermLeaderOk(s, t))
    && (forall t | t in s.history.logs :: TermLogOk(s.history, t))
  }

  ghost predicate GrantsOk(s: Cluster) {
    forall b | b in s.history.grants :: GrantOk(s, b)
  }

  ghost predicate AcksOk(s: Cluster) {
    && (forall a | a in s.history.acks :: a.node in s.nodes && AckOk(s.history, s.servers, a, s.nodes[a.node]))
    && (forall a, b | a in s.history.acks && b in s.history.grants :: AckBeforeBallot(s.history, a, b))
  }

  ghost predicate OutcomesOk(s: Cluster) {
    && (forall c | c in s.history.commits :: CommitOk(s.history, s.servers, c))
    && (forall a | a in s.history.applied :: ApplicationOk(s.history, a))
    && (forall n, t | (n, t) in s.history.leaderships :: LeadershipOk(s.history, n, t))
  }

  ghost predicate MessagesOk(s: Cluster) {
    forall m | m in s.sent :: MessageOk(s, m)
  }

  ghost predicate Inv(s: Cluster) {
    NodesOk(s) && ElectionsOk(s) && GrantsOk(s) && AcksOk(s) && OutcomesOk(s) && MessagesOk(s)
  }
}
