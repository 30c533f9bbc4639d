/** Why a leader of a Raft run must not record an acknowledgement that was given for an earlier term:
    five nodes, and one stale acknowledgement after which two of them apply different entries at the
    same index. */
module RaftStaleAcks {
  import opened Wrappers
  import opened RaftLogs
  import opened RaftNodes
  import opened RaftCluster
  import opened RaftPaths

  // ----- States of the five -----

  ghost predicate Team(s: Cluster) {
    && |s.servers| == 5 && s.nodes.Keys == s.servers && s.snapshotInterval >= 3
    && forall n | n in s.nodes :: s.nodes[n].log.lastIncludedIndex == 0
  }

  /** A node that has applied nothing yet. */
  ghost predicate Idle(s: Cluster, n: Id, term: nat, role: Role, entries: seq<Entry>) {
    && n in s.nodes
    && var node := s.nodes[n];
       && node.currentTerm == term && node.role == role && node.log == LogState(entries, 0, 0)
       && node.commitIndex == 0 && node.lastApplied == 0 && node.store == map[]
       && node.matchIndex.Keys <= s.servers - {n}
  }

  /** The nodes that are as they were. */
  ghost predicate Same(s: Cluster, s': Cluster, except: set<Id>) {
    s.servers == s'.servers && s.nodes.Keys == s'.nodes.Keys && s.sent <= s'.sent && forall n | n in s.nodes
        && n !in except :: s'.nodes[n] == s.nodes[n]
  }

  lemma OneMoves(s: Cluster, s': Cluster, n: Id, node': NodeState)
    requires Team(s) && n in s.servers && node'.log.lastIncludedIndex == 0
    requires s' == s.(nodes := s.nodes[n := node'], sent := s'.sent, history := s'.history) && s.sent <= s'.sent
    ensures Team(s') && Same(s, s', {n})
  {
  }

  // ----- An election -----

  ghost predicate Asking(s: Cluster, n: Id, term: nat, entries: seq<Entry>, votes: set<Id>) {
    && Idle(s, n, term, Candidate, entries)
    && term in s.nodes[n].votes && s.nodes[n].votes[term] == votes
  }

  function LastTerm(entries: seq<Entry>): nat {
    if entries == [] then 0 else entries[|entries| - 1].term
  }

  function Ask(n: Id, term: nat, entries: seq<Entry>): VoteRequest {
    VoteRequest(term, n, |entries|, LastTerm(entries))
  }

  lemma TimeoutEffect(s: Cluster, n: Id, term: nat, role: Role, entries: seq<Entry>)
    requires Team(s) && Idle(s, n, term, role, entries) && role != Leader
    ensures Allowed(WithoutCompaction, s, Timeout(n)) && Enabled(s, Timeout(n))
    ensures var s' := After(s, Timeout(n));
            && Team(s') && Same(s, s', {n})
            && Asking(s', n, term + 1, entries, {n})
            && forall p | p in s.servers && p != n :: VoteCall(p, Ask(n, term + 1, entries)) in s'.sent
  {
    var s' := After(s, Timeout(n));
    var node' := s'.nodes[n];
    assert VoteRequestOf(node', s.ConfigOf(n)) == Ask(n, term + 1, entries);
    assert s.ConfigOf(n).peers == s.servers - {n};
  }

  lemma VoteEffect(s: Cluster, n: Id, p: Id, term: nat, entries: seq<Entry>, oldTerm: nat, role: Role, log: seq<Entry>)
    requires Team(s) && Idle(s, p, oldTerm, role, log) && oldTerm < term && n != p
    requires VoteCall(p, Ask(n, term, entries)) in s.sent
    requires UpToDate(|entries|, LastTerm(entries), |log|, LastTerm(log))
    ensures var step := DeliverVoteCall(VoteCall(p, Ask(n, term, entries)));
            && Allowed(WithoutCompaction, s, step) && Enabled(s, step)
            && var s' := After(s, step);
               && Team(s') && Same(s, s', {p})
               && Idle(s', p, term, Follower, log)
               && VoteReply(p, n, term, term, true) in s'.sent
  {
  }

  lemma VoteReplyMoves(s: Cluster, m: Message, node': NodeState)
    requires Team(s) && m in s.sent && m.VoteReply? && m.to in s.servers && m.requestTerm == s.nodes[m.to].currentTerm
    requires node' == OnVoteReply(s.nodes[m.to], s.ConfigOf(m.to), m.from, m.requestTerm, m.replyTerm, m.granted)
    requires node'.log.lastIncludedIndex == 0
    requires s.nodes[m.to].role == Candidate && node'.role == Leader ==> m.requestTerm in node'.votes
    ensures Allowed(WithoutCompaction, s, DeliverVoteReply(m)) && Enabled(s, DeliverVoteReply(m))
    ensures var s' := After(s, DeliverVoteReply(m)); Team(s') && Same(s, s', {m.to}) && s'.nodes[m.to] == node'
  {
    hide OnVoteReply, RecordElection;
    OneMoves(s, After(s, DeliverVoteReply(m)), m.to, node');
  }

  lemma FirstVoteEffect(s: Cluster, n: Id, p: Id, term: nat, entries: seq<Entry>)
    requires Team(s) && Asking(s, n, term, entries, {n}) && p in s.servers && p != n
    requires VoteReply(p, n, term, term, true) in s.sent
    ensures var step := DeliverVoteReply(VoteReply(p, n, term, term, true));
            && Allowed(WithoutCompaction, s, step) && Enabled(s, step)
            && var s' := After(s, step);
               Team(s') && Same(s, s', {n}) && Asking(s', n, term, entries, {n, p})
  {
    FirstVoteCounted(s.nodes[n], s.ConfigOf(n), p);
    MajorityOfFive(s, n);
    var m := VoteReply(p, n, term, term, true);
    VoteReplyMoves(s, m, s.nodes[n].(votes := s.nodes[n].votes[term := {n, p}]));
    hide OnVoteReply, After, Allowed, Team;
  }

  /** The first vote from another node is not enough. */
  lemma FirstVoteCounted(node: NodeState, c: Config, p: Id)
    requires node.role == Candidate && node.currentTerm in node.votes && node.votes[node.currentTerm] == {c.me}
    requires p != c.me
    ensures c.Majority() == 2 ==>
              OnVoteReply(node, c, p, node.currentTerm, node.currentTerm, true)
              == node.(votes := node.votes[node.currentTerm := {c.me, p}])
  {
    hide BecomeLeader;
    assert {c.me} + {p} == {c.me, p};
    assert |{c.me, p}| == 2;
  }

  lemma MajorityOfFive(s: Cluster, n: Id)
    requires |s.servers| == 5 && n in s.servers
    ensures s.ConfigOf(n).Majority() == 2
  {
    assert {n} + (s.servers - {n}) == s.servers;
  }

  /** A leader that has just won: it would ship from the end of its log on, and knows of nobody's. */
  ghost predicate Leading(s: Cluster, n: Id, term: nat, entries: seq<Entry>, next: nat, matches: map<Id, nat>) {
    && Idle(s, n, term, Leader, entries)
    && (forall p | p in s.servers - {n} :: p in s.nodes[n].nextIndex && s.nodes[n].nextIndex[p] == next)
    && s.nodes[n].matchIndex == matches
  }

  ghost predicate Blank(peers: set<Id>, matches: map<Id, nat>) {
    matches.Keys == peers && forall p | p in matches :: matches[p] == 0
  }

  lemma FreshLeader(node: NodeState, c: Config)
    requires node.matchIndex.Keys <= c.peers
    ensures var node' := BecomeLeader(node, c);
            && node' == node.(role := Leader, nextIndex := node'.nextIndex, matchIndex := node'.matchIndex)
            && (forall x | x in c.peers :: x in node'.nextIndex && node'.nextIndex[x] == node.log.Length() + 1)
            && Blank(c.peers, node'.matchIndex)
  {
    hide Fill;
    FillValues(node.nextIndex, c.peers, node.log.Length() + 1);
    FillValues(node.matchIndex, c.peers, 0);
    assert node.matchIndex.Keys + c.peers == c.peers;
  }

  /** The second one is. */
  lemma SecondVoteCounted(node: NodeState, c: Config, p: Id, q: Id)
    requires node.role == Candidate && node.currentTerm in node.votes && node.votes[node.currentTerm] == {c.me, p}
    requires c.me != p && q !in {c.me, p}
    ensures c.Majority() == 2 ==>
              OnVoteReply(node, c, q, node.currentTerm, node.currentTerm, true)
              == BecomeLeader(node.(votes := node.votes[node.currentTerm := {c.me, p, q}]), c)
  {
    hide BecomeLeader;
    assert {c.me, p} + {q} == {c.me, p, q};
    assert |{c.me, p, q}| == 3;
  }

  lemma WinEffect(s: Cluster, n: Id, p: Id, q: Id, term: nat, entries: seq<Entry>) returns (matches: map<Id, nat>)
    requires Team(s) && Asking(s, n, term, entries, {n, p}) && {n, p, q} <= s.servers && n != p && n != q && p != q
    requires VoteReply(q, n, term, term, true) in s.sent
    ensures var step := DeliverVoteReply(VoteReply(q, n, term, term, true));
            && Allowed(WithoutCompaction, s, step) && Enabled(s, step)
            && var s' := After(s, step);
               && Team(s') && Same(s, s', {n})
               && Leading(s', n, term, entries, |entries| + 1, matches) && Blank(s.servers - {n}, matches)
  {
    var node := s.nodes[n];
    MajorityOfFive(s, n);
    SecondVoteCounted(node, s.ConfigOf(n), p, q);
    FreshLeader(node.(votes := node.votes[term := {n, p, q}]), s.ConfigOf(n));
    hide OnVoteReply, BecomeLeader, Blank;
    var node' := OnVoteReply(node, s.ConfigOf(n), q, term, term, true);
    matches := node'.matchIndex;
    VoteReplyMoves(s, VoteReply(q, n, term, term, true), node');
    hide After, Allowed, Team;
  }

  /** `n` is elected by `p` and `q`. */
  lemma Elect(s: Cluster, n: Id, p: Id, q: Id, term: nat, role: Role, entries: seq<Entry>,
              termP: nat, roleP: Role, logP: seq<Entry>, termQ: nat, roleQ: Role, logQ: seq<Entry>)
      returns (steps: seq<Step>, s': Cluster, matches: map<Id, nat>)
    requires Team(s) && n in s.servers && p in s.servers && q in s.servers && n != p && n != q && p != q
    requires Idle(s, n, term, role, entries) && Idle(s, p, termP, roleP, logP) && Idle(s, q, termQ, roleQ, logQ)
    requires role != Leader && termP <= term && termQ <= term
    requires UpToDate(|entries|, LastTerm(entries), |logP|, LastTerm(logP))
    requires UpToDate(|entries|, LastTerm(entries), |logQ|, LastTerm(logQ))
    ensures Leads(WithoutCompaction, s, steps, s') && Team(s') && Same(s, s', {n, p, q})
    ensures Leading(s', n, term + 1, entries, |entries| + 1, matches) && Blank(s.servers - {n}, matches)
    ensures Idle(s', p, term + 1, Follower, logP) && Idle(s', q, term + 1, Follower, logQ)
  {
    hide After, Allowed, Team, Leads, Asking, Idle, Leading, Blank, UpToDate;
    var t := term + 1;
    TimeoutEffect(s, n, term, role, entries);
    StepLeads(WithoutCompaction, s, Timeout(n));
    var s1 := After(s, Timeout(n));
    assert VoteCall(p, Ask(n, t, entries)) in s1.sent && VoteCall(q, Ask(n, t, entries)) in s1.sent;
    IdleStays(s, s1, {n}, p, termP, roleP, logP);
    var ask := DeliverVoteCall(VoteCall(p, Ask(n, t, entries)));
    VoteEffect(s1, n, p, t, entries, termP, roleP, logP);
    OneMore(WithoutCompaction, s, [Timeout(n)], s1, ask);
    var s2 := After(s1, ask);
    AskingStays(s1, s2, {p}, n, t, entries, {n});
    IdleStays(s, s2, {n, p}, q, termQ, roleQ, logQ);
    var ask' := DeliverVoteCall(VoteCall(q, Ask(n, t, entries)));
    VoteEffect(s2, n, q, t, entries, termQ, roleQ, logQ);
    OneMore(WithoutCompaction, s, [Timeout(n)] + [ask], s2, ask');
    var s3 := After(s2, ask');
    AskingStays(s2, s3, {q}, n, t, entries, {n});
    var vote := DeliverVoteReply(VoteReply(p, n, t, t, true));
    FirstVoteEffect(s3, n, p, t, entries);
    OneMore(WithoutCompaction, s, [Timeout(n)] + [ask] + [ask'], s3, vote);
    var s4 := After(s3, vote);
    var vote' := DeliverVoteReply(VoteReply(q, n, t, t, true));
    matches := WinEffect(s4, n, p, q, t, entries);
    OneMore(WithoutCompaction, s, [Timeout(n)] + [ask] + [ask'] + [vote], s4, vote');
    s' := After(s4, vote');
    steps := [Timeout(n)] + [ask] + [ask'] + [vote] + [vote'];
    IdleStays(s2, s', {n, q}, p, t, Follower, logP);
    IdleStays(s3, s', {n}, q, t, Follower, logQ);
  }

  lemma IdleStays(s: Cluster, s': Cluster, except: set<Id>, n: Id, term: nat, role: Role, entries: seq<Entry>)
    requires Idle(s, n, term, role, entries) && Same(s, s', except) && n !in except
    ensures Idle(s', n, term, role, entries)
  {
  }

  lemma AskingStays(s: Cluster, s': Cluster, except: set<Id>, n: Id, term: nat, entries: seq<Entry>, votes: set<Id>)
    requires Asking(s, n, term, entries, votes) && Same(s, s', except) && n !in except
    ensures Asking(s', n, term, entries, votes)
  {
  }

  lemma LeadingStays(s: Cluster, s': Cluster, except: set<Id>, n: Id, term: nat, entries: seq<Entry>, next: nat,
      matches: map<Id, nat>)
    requires Leading(s, n, term, entries, next, matches) && Same(s, s', except) && n !in except
    ensures Leading(s', n, term, entries, next, matches)
  {
  }

  // ----- Replication -----

  function AckOf(p: Id, n: Id, term: nat, prev: nat, count: nat): Message {
    AppendReply(p, n, term, prev, count, term, true)
  }

  lemma SubmitEffect(s: Cluster, n: Id, term: nat, entries: seq<Entry>, next: nat, matches: map<Id, nat>,
      command: Command)
    requires Team(s) && n in s.servers && Leading(s, n, term, entries, next, matches)
    ensures var step := Submit(n, command);
            && Allowed(WithoutCompaction, s, step) && Enabled(s, step)
            && var s' := After(s, step);
               && Team(s') && Same(s, s', {n})
               && Leading(s', n, term, entries + [Entry(term, |entries| + 1, command)], next, matches)
  {
    OneMoves(s, After(s, Submit(n, command)), n, SubmitCommand(s.nodes[n], command));
    hide Team, Same;
  }

  lemma SendEffect(s: Cluster, n: Id, p: Id, term: nat, entries: seq<Entry>, next: nat, matches: map<Id, nat>)
    requires Team(s) && n in s.servers && p in s.servers && p != n
    requires Leading(s, n, term, entries, next, matches) && 1 <= next <= |entries| + 1
    ensures var step := SendAppend(n, p);
            && Allowed(WithoutCompaction, s, step) && Enabled(s, step)
            && var s' := After(s, step);
               && Team(s') && Same(s, s', {})
               && AppendCall(p, AppendRequest(term, n, next - 1, TermOf(entries, next - 1), entries[next - 1..], 0))
                  in s'.sent
  {
    var node := s.nodes[n];
    assert AppendRequestOf(node, s.ConfigOf(n), p)
           == Some(AppendRequest(term, n, next - 1, TermOf(entries, next - 1), entries[next - 1..], 0));
    hide AppendRequestOf;
    var s' := After(s, SendAppend(n, p));
    OneMoves(s, s', n, node);
    assert s'.nodes[n] == s.nodes[n];
    hide Team;
  }

  lemma ReceiveEffect(s: Cluster, r: AppendRequest, p: Id, term: nat, role: Role, log: seq<Entry>, merged: seq<Entry>)
    requires Team(s) && p in s.servers && AppendCall(p, r) in s.sent && Idle(s, p, term, role, log)
    requires term <= r.term && r.leaderCommit == 0 && LogState(log, 0, 0).Matches(r.prevIndex, r.prevTerm)
    requires MergeEntries(LogState(log, 0, 0), r.prevIndex, r.entries) == LogState(merged, 0, 0)
    ensures var step := DeliverAppendCall(AppendCall(p, r));
            && Allowed(WithoutCompaction, s, step) && Enabled(s, step)
            && var s' := After(s, step);
               && Team(s') && Same(s, s', {p})
               && Idle(s', p, r.term, if r.term > term then Follower else role, merged)
               && AckOf(p, r.leader, r.term, r.prevIndex, |r.entries|) in s'.sent
  {
    hide MergeEntries;
    var node := s.nodes[p];
    var node' := HandleAppendEntries(node, r, s.snapshotInterval).0;
    OneMoves(s, After(s, DeliverAppendCall(AppendCall(p, r))), p, node');
    hide Team, Same, LogState.Matches;
  }

  /** A log accepts what is shipped from `next` on and becomes `merged`. */
  ghost predicate MergesTo(log: seq<Entry>, entries: seq<Entry>, next: nat, merged: seq<Entry>) {
    && 1 <= next <= |entries| + 1
    && LogState(log, 0, 0).Matches(next - 1, TermOf(entries, next - 1))
    && MergeEntries(LogState(log, 0, 0), next - 1, entries[next - 1..]) == LogState(merged, 0, 0)
  }

  /** The leader ships to `p`, which merges what it gets. */
  lemma Ship(s: Cluster, n: Id, p: Id, term: nat, entries: seq<Entry>, next: nat, matches: map<Id, nat>,
             termP: nat, roleP: Role, log: seq<Entry>, merged: seq<Entry>) returns (steps: seq<Step>, s': Cluster)
    requires Team(s) && n in s.servers && p in s.servers && p != n
    requires Leading(s, n, term, entries, next, matches)
    requires Idle(s, p, termP, roleP, log) && termP <= term && MergesTo(log, entries, next, merged)
    ensures Leads(WithoutCompaction, s, steps, s') && Team(s') && Same(s, s', {p})
    ensures Leading(s', n, term, entries, next, matches)
    ensures Idle(s', p, term, if term > termP then Follower else roleP, merged)
    ensures AckOf(p, n, term, next - 1, |entries| + 1 - next) in s'.sent
  {
    hide After, Allowed, Enabled, Team, Leads, Idle, Leading, LogState.Matches, MergeEntries;
    var r := AppendRequest(term, n, next - 1, TermOf(entries, next - 1), entries[next - 1..], 0);
    SendEffect(s, n, p, term, entries, next, matches);
    StepLeads(WithoutCompaction, s, SendAppend(n, p));
    var s1 := After(s, SendAppend(n, p));
    IdleStays(s, s1, {}, p, termP, roleP, log);
    LeadingStays(s, s1, {}, n, term, entries, next, matches);
    var step := DeliverAppendCall(AppendCall(p, r));
    ReceiveEffect(s1, r, p, termP, roleP, log, merged);
    OneMore(WithoutCompaction, s, [SendAppend(n, p)], s1, step);
    s' := After(s1, step);
    LeadingStays(s1, s', {p}, n, term, entries, next, matches);
    steps := [SendAppend(n, p)] + [step];
  }

  /** A leader that has recorded what it knows of the others. */
  ghost predicate Knowing(s: Cluster, n: Id, term: nat, entries: seq<Entry>, matches: map<Id, nat>) {
    Idle(s, n, term, Leader, entries) && s.nodes[n].matchIndex == matches
  }

  ghost predicate Applied(s: Cluster, n: Id, entries: seq<Entry>) {
    && n in s.nodes
    && var node := s.nodes[n];
       && node.role == Leader && node.log == LogState(entries, 0, 0)
       && node.commitIndex == |entries| && node.lastApplied == |entries| && node.store == ApplyLog(entries)
  }

  lemma OneIsNoMajority(peers: set<Id>, matches: map<Id, nat>, p: Id)
    requires |peers| == 4 && Blank(peers, matches) && p in peers
    ensures IsMajorityMatch(matches[p := 2], 2, 2, 0)
  {
    var m := matches[p := 2];
    assert (set q | q in m && m[q] >= 0) == peers;
    assert (set q | q in m && m[q] >= 1) == {p};
  }

  lemma TwoAreMajority(peers: set<Id>, matches: map<Id, nat>, p: Id, q: Id)
    requires Blank(peers, matches) && p in peers && q in peers && p != q
    ensures IsMajorityMatch(matches[p := 2][q := 2], 2, 2, 2)
  {
    var m := matches[p := 2][q := 2];
    assert (set x | x in m && m[x] >= 2) == {p, q};
    assert (set x | x in m && m[x] >= 3) == {};
  }

  /** One acknowledgement of two entries, of whatever term, does not commit them. */
  lemma FirstAckEffect(s: Cluster, n: Id, p: Id, term: nat, entries: seq<Entry>, next: nat, matches: map<Id, nat>,
                       ackTerm: nat, prev: nat, count: nat)
    requires Team(s) && n in s.servers && p in s.servers && p != n
    requires Leading(s, n, term, entries, next, matches) && Blank(s.servers - {n}, matches) && |entries| == 2
    requires AckOf(p, n, ackTerm, prev, count) in s.sent && ackTerm <= term && prev + count == 2 && count > 0
    ensures var step := DeliverAppendReply(AckOf(p, n, ackTerm, prev, count), 0);
            && Enabled(s, step) && NoCompaction(s) && (RepliesInTerm(s, step) <==> ackTerm == term)
            && var s' := After(s, step);
               Team(s') && Same(s, s', {n}) && Knowing(s', n, term, entries, matches[p := 2])
  {
    MajorityOfFive(s, n);
    OneIsNoMajority(s.servers - {n}, matches, p);
    hide IsMajorityMatch, Blank, After, Enabled, RepliesInTerm, NoCompaction;
    AckMoves(s, AckOf(p, n, ackTerm, prev, count), 0, RecordMatch(s.nodes[n], p, 2));
    hide Team, Same;
  }

  /** The second one does, if the last entry is of the leader's term. */
  lemma SecondAckEffect(s: Cluster, n: Id, p: Id, q: Id, term: nat, entries: seq<Entry>, matches: map<Id, nat>,
      prev: nat, count: nat)
    requires Team(s) && n in s.servers && p in s.servers && q in s.servers && p != n && q != n && p != q
    requires Knowing(s, n, term, entries, matches[p := 2]) && Blank(s.servers - {n}, matches)
    requires |entries| == 2 && entries[1].term == term
    requires AckOf(q, n, term, prev, count) in s.sent && prev + count == 2 && count > 0
    ensures var step := DeliverAppendReply(AckOf(q, n, term, prev, count), 2);
            && Allowed(WithoutCompaction, s, step) && Enabled(s, step)
            && var s' := After(s, step);
               Team(s') && Same(s, s', {n}) && Applied(s', n, entries)
  {
    MajorityOfFive(s, n);
    TwoAreMajority(s.servers - {n}, matches, p, q);
    var m, node := AckOf(q, n, term, prev, count), RecordMatch(s.nodes[n], q, 2);
    var node' := CommitTo(node, s.ConfigOf(n), 2);
    TwoApplied(node, s.ConfigOf(n), entries);
    AckMoves(s, m, 2, node');
    hide *;
    assert Applied(After(s, DeliverAppendReply(m, 2)), n, entries) by {
      IsApplied(After(s, DeliverAppendReply(m, 2)), n, node', entries);
    }
  }

  lemma IsApplied(s: Cluster, n: Id, node: NodeState, entries: seq<Entry>)
    requires n in s.nodes && s.nodes[n] == node && node.role == Leader && node.log == LogState(entries, 0, 0)
    requires node.commitIndex == |entries| == node.lastApplied && node.store == ApplyLog(entries)
    ensures Applied(s, n, entries)
  {
  }

  /** A leader gets an acknowledgement of two entries. */
  lemma AckMoves(s: Cluster, m: Message, k: nat, node': NodeState)
    requires Team(s) && m in s.sent && m.AppendReply? && m.to in s.servers && m.success && m.count > 0
    requires m.prevIndex + m.count == 2 && s.nodes[m.to].role == Leader && m.replyTerm <= s.nodes[m.to].currentTerm
    requires IsMajorityMatch(RecordMatch(s.nodes[m.to], m.from, 2).matchIndex, s.nodes[m.to].log.Length(),
        s.ConfigOf(m.to).Majority(), k)
    requires node' == CommitTo(RecordMatch(s.nodes[m.to], m.from, 2), s.ConfigOf(m.to), k)
    requires node'.log.lastIncludedIndex == 0
    ensures var step := DeliverAppendReply(m, k);
            && Enabled(s, step) && NoCompaction(s)
                && (RepliesInTerm(s, step) <==> m.requestTerm == s.nodes[m.to].currentTerm)
            && var s' := After(s, step);
               Team(s') && Same(s, s', {m.to}) && s'.nodes[m.to] == node'
  {
    hide IsMajorityMatch, CommitTo, RecordMatch;
    AckIsEnabled(s, m, k);
    AckHandled(s.nodes[m.to], s.ConfigOf(m.to), m, k);
    hide OnAppendReply, RecordApplications, CommitQuorum, RepliesInTerm, Enabled;
    OneMoves(s, After(s, DeliverAppendReply(m, k)), m.to, node');
    hide Team, Same;
  }

  lemma AckIsEnabled(s: Cluster, m: Message, k: nat)
    requires Team(s) && m in s.sent && m.AppendReply? && m.to in s.servers && m.success && m.count > 0
    requires m.prevIndex + m.count == 2 && s.nodes[m.to].role == Leader && m.replyTerm <= s.nodes[m.to].currentTerm
    requires IsMajorityMatch(RecordMatch(s.nodes[m.to], m.from, 2).matchIndex, s.nodes[m.to].log.Length(),
        s.ConfigOf(m.to).Majority(), k)
    ensures var step := DeliverAppendReply(m, k);
            Enabled(s, step) && NoCompaction(s)
                && (RepliesInTerm(s, step) <==> m.requestTerm == s.nodes[m.to].currentTerm)
  {
    hide IsMajorityMatch, RecordMatch;
  }

  lemma AckHandled(node: NodeState, c: Config, m: Message, k: nat)
    requires m.AppendReply? && m.success && m.count > 0 && m.prevIndex + m.count == 2
    requires node.role == Leader && m.replyTerm <= node.currentTerm && node.log.lastIncludedIndex <= node.lastApplied
    ensures OnAppendReply(node, c, m.from, m.prevIndex, m.count, m.replyTerm, m.success, k)
            == CommitTo(RecordMatch(node, m.from, 2), c, k)
  {
    hide CommitTo;
  }

  lemma TwoApplied(node: NodeState, c: Config, entries: seq<Entry>)
    requires node.log == LogState(entries, 0, 0) && node.commitIndex == 0 && node.lastApplied == 0
    requires node.store == map[]
    requires |entries| == 2 && entries[1].term == node.currentTerm && c.snapshotInterval >= 3
    ensures CommitTo(node, c, 2) == node.(commitIndex := 2, lastApplied := 2, store := ApplyLog(entries))
  {
    var i, n0 := c.snapshotInterval, node.(commitIndex := 2);
    assert CheckSnapshot(ApplyNext(n0), i) == ApplyNext(n0);
    var n1 := ApplyNext(n0);
    assert CheckSnapshot(ApplyNext(n1), i) == ApplyNext(n1);
    var n2 := ApplyNext(n1);
    assert ApplyCommitted(n0, i) == ApplyCommitted(n1, i) == ApplyCommitted(n2, i) == n2;
    assert entries[..1] == [entries[0]] && [entries[0]][..0] == [];
    assert ApplyLog([entries[0]]) == ApplyCommand(map[], entries[0].command).0;
  }

  // ----- The run -----

  const X: Command := Set("k", "x")
  const Y: Command := Set("k", "y")
  const Z: Command := Set("k", "z")
  const W: Command := Set("k", "w")

  function LogX(): seq<Entry> {
    [Entry(1, 1, X)] + [Entry(1, 2, X)]
  }

  function LogY(): seq<Entry> {
    [Entry(2, 1, Y)]
  }

  function LogZ(): seq<Entry> {
    LogY() + [Entry(3, 2, Z)]
  }

  function LogW(): seq<Entry> {
    LogY() + [Entry(4, 2, W)]
  }

  /** Five servers, by name. */
  ghost predicate AreFive(servers: set<Id>, a: Id, b: Id, c: Id, d: Id, e: Id) {
    servers == {a, b, c, d, e} && |servers| == 5
  }

  lemma FiveDiffer(servers: set<Id>, a: Id, b: Id, c: Id, d: Id, e: Id)
    requires AreFive(servers, a, b, c, d, e)
    ensures a in servers && b in servers && c in servers && d in servers && e in servers
    ensures a != b && a != c && a != d && a != e && b != c && b != d && b != e && c != d && c != e && d != e
  {
    if a == b || a == c || a == d || a == e {
      SmallSet(b, c, d, e);
    } else if b == c || b == d || b == e {
      SmallSet(a, c, d, e);
    } else if c == d || c == e {
      SmallSet(a, b, d, e);
    } else if d == e {
      SmallSet(a, b, c, d);
    }
  }

  lemma SmallSet(a: Id, b: Id, c: Id, d: Id)
    ensures |{a, b, c, d}| <= 4 && {a, b, c, d} == {b, c, d, a}
  {
    assert {a, b, c, d} == {a, b, c} + {d};
    assert {a, b, c} == {a, b} + {c};
    assert {a, b} == {a} + {b};
  }

  lemma MergeOne(log: seq<Entry>, prev: nat, e: Entry)
    ensures MergeEntries(LogState(log, 0, 0), prev, [e]) == MergeEntry(LogState(log, 0, 0), prev + 1, e)
  {
    assert [e][1..] == [];
  }

  lemma LogFacts()
    ensures |LogX()| == 2 && |LogY()| == 1 && |LogZ()| == 2 && |LogW()| == 2
    ensures LastTerm([]) == 0 && LastTerm(LogX()) == 1 && LastTerm(LogY()) == 2
    ensures LogY() == [] + [Entry(2, 1, Y)] && LogZ() == LogY() + [Entry(3, 2, Z)]
    ensures LogW() == LogY() + [Entry(4, 2, W)]
    ensures LogZ()[1].term == 3 && LogW()[1].term == 4
    ensures UpToDate(0, 0, 0, 0) && UpToDate(1, 2, 1, 2) && UpToDate(1, 2, 2, 1)
  {
  }

  /** What the logs make of what is shipped to them. */
  lemma MergeFacts()
    ensures MergesTo([], LogX(), 1, LogX()) && MergesTo(LogX(), LogY(), 1, LogY()) && MergesTo([], LogY(), 1, LogY())
    ensures MergesTo(LogY(), LogZ(), 2, LogZ()) && MergesTo(LogY(), LogW(), 2, LogW())
    ensures MergesTo(LogZ(), LogW(), 2, LogW())
  {
    MergeX();
    assert LogY()[0..] == LogY();
    MergeOne(LogX(), 0, Entry(2, 1, Y));
    MergeOne([], 0, Entry(2, 1, Y));
    assert LogX()[..0] + [Entry(2, 1, Y)] == LogY() && [] + [Entry(2, 1, Y)] == LogY();
    assert LogZ()[1..] == [Entry(3, 2, Z)] && LogW()[1..] == [Entry(4, 2, W)];
    MergeOne(LogY(), 1, Entry(3, 2, Z));
    MergeOne(LogY(), 1, Entry(4, 2, W));
    MergeOne(LogZ(), 1, Entry(4, 2, W));
    assert LogZ()[..1] == LogY();
  }

  lemma MergeX()
    ensures MergesTo([], LogX(), 1, LogX())
  {
    var e, f := Entry(1, 1, X), Entry(1, 2, X);
    assert LogX()[0..] == LogX() && LogX()[1..] == [f];
    assert MergeEntry(LogState([], 0, 0), 1, e) == LogState([e], 0, 0);
    MergeOne([e], 1, f);
  }

  lemma FreshTeam(s: Cluster, a: Id, b: Id, c: Id, d: Id, e: Id)
    requires Init(s) && AreFive(s.servers, a, b, c, d, e) && s.snapshotInterval >= 3
    ensures Team(s)
    ensures Idle(s, a, 0, Follower, []) && Idle(s, b, 0, Follower, []) && Idle(s, c, 0, Follower, [])
    ensures Idle(s, d, 0, Follower, []) && Idle(s, e, 0, Follower, [])
  {
  }

  lemma SameKeeps(s: Cluster, s': Cluster, except: set<Id>)
    requires Same(s, s', except)
    ensures s'.servers == s.servers && s.sent <= s'.sent
  {
  }

  /** The states in which terms begin. */
  ghost predicate AfterFirst(s: Cluster, a: Id, b: Id, c: Id, d: Id, e: Id) {
    && Team(s) && AreFive(s.servers, a, b, c, d, e) && AckOf(b, a, 1, 0, 2) in s.sent
    && Idle(s, a, 1, Leader, LogX()) && Idle(s, b, 1, Follower, LogX())
    && Idle(s, c, 1, Follower, []) && Idle(s, d, 1, Follower, []) && Idle(s, e, 0, Follower, [])
  }

  ghost predicate AfterSecond(s: Cluster, a: Id, b: Id, c: Id, d: Id, e: Id) {
    && Team(s) && AreFive(s.servers, a, b, c, d, e) && AckOf(b, a, 1, 0, 2) in s.sent
    && Idle(s, a, 2, Follower, LogY()) && Idle(s, b, 1, Follower, LogX())
    && Idle(s, c, 2, Leader, LogY()) && Idle(s, d, 2, Follower, LogY()) && Idle(s, e, 2, Follower, LogY())
  }

  /** `a` leads term 1 with two entries. */
  lemma FirstElection(s: Cluster, a: Id, b: Id, c: Id, d: Id, e: Id)
      returns (steps: seq<Step>, s': Cluster, matches: map<Id, nat>)
    requires Init(s) && AreFive(s.servers, a, b, c, d, e) && s.snapshotInterval >= 3
    ensures Leads(WithoutCompaction, s, steps, s') && Team(s') && s'.servers == s.servers
    ensures Leading(s', a, 1, LogX(), 1, matches) && Idle(s', b, 0, Follower, [])
    ensures Idle(s', c, 1, Follower, []) && Idle(s', d, 1, Follower, []) && Idle(s', e, 0, Follower, [])
  {
    hide *;
    FiveDiffer(s.servers, a, b, c, d, e);
    FreshTeam(s, a, b, c, d, e);
    LogFacts();
    var won, s1, matches1 := Elect(s, a, c, d, 0, Follower, [], 0, Follower, [], 0, Follower, []);
    SameKeeps(s, s1, {a, c, d});
    var submitted, s2 := SubmitX(s1, a, matches1);
    LeadsOn(WithoutCompaction, s, won, s1, submitted, s2);
    SameKeeps(s1, s2, {a});
    IdleStays(s, s1, {a, c, d}, b, 0, Follower, []);
    IdleStays(s, s1, {a, c, d}, e, 0, Follower, []);
    IdleStays(s1, s2, {a}, b, 0, Follower, []);
    IdleStays(s1, s2, {a}, c, 1, Follower, []);
    IdleStays(s1, s2, {a}, d, 1, Follower, []);
    IdleStays(s1, s2, {a}, e, 0, Follower, []);
    steps, s', matches := won + submitted, s2, matches1;
  }

  /** It ships both to `b`, whose acknowledgement is slow. */
  lemma FirstTerm(s: Cluster, a: Id, b: Id, c: Id, d: Id, e: Id) returns (steps: seq<Step>, s': Cluster)
    requires Init(s) && AreFive(s.servers, a, b, c, d, e) && s.snapshotInterval >= 3
    ensures Leads(WithoutCompaction, s, steps, s') && AfterFirst(s', a, b, c, d, e)
  {
    hide Team, AreFive, Idle, Leads, Leading, Same, Blank, MergesTo, LogX, AckOf, Init, LogY, LogZ, LogW, UpToDate;
    FiveDiffer(s.servers, a, b, c, d, e);
    MergeFacts();
    LogFacts();
    var won, s1, matches := FirstElection(s, a, b, c, d, e);
    var shipped, s2 := Ship(s1, a, b, 1, LogX(), 1, matches, 0, Follower, [], LogX());
    LeadsOn(WithoutCompaction, s, won, s1, shipped, s2);
    SameKeeps(s1, s2, {b});
    LeadingIsIdle(s2, a, 1, LogX(), 1, matches);
    IdleStays(s1, s2, {b}, c, 1, Follower, []);
    IdleStays(s1, s2, {b}, d, 1, Follower, []);
    IdleStays(s1, s2, {b}, e, 0, Follower, []);
    steps, s' := won + shipped, s2;
  }

  lemma SubmitX(s: Cluster, a: Id, matches: map<Id, nat>) returns (steps: seq<Step>, s': Cluster)
    requires Team(s) && a in s.servers && Leading(s, a, 1, [], 1, matches)
    ensures Leads(WithoutCompaction, s, steps, s') && Team(s') && Same(s, s', {a})
    ensures Leading(s', a, 1, LogX(), 1, matches)
  {
    hide After, Allowed, Enabled, Leads, Leading, Team;
    assert [] + [Entry(1, 1, X)] == [Entry(1, 1, X)];
    SubmitEffect(s, a, 1, [], 1, matches, X);
    StepLeads(WithoutCompaction, s, Submit(a, X));
    var s1 := After(s, Submit(a, X));
    SubmitEffect(s1, a, 1, [Entry(1, 1, X)], 1, matches, X);
    OneMore(WithoutCompaction, s, [Submit(a, X)], s1, Submit(a, X));
    steps, s' := [Submit(a, X)] + [Submit(a, X)], After(s1, Submit(a, X));
  }

  lemma LeadingIsIdle(s: Cluster, n: Id, term: nat, entries: seq<Entry>, next: nat, matches: map<Id, nat>)
    requires Leading(s, n, term, entries, next, matches)
    ensures Idle(s, n, term, Leader, entries)
  {
  }

  lemma AppliedStays(s: Cluster, s': Cluster, except: set<Id>, n: Id, entries: seq<Entry>)
    requires Applied(s, n, entries) && Same(s, s', except) && n !in except
    ensures Applied(s', n, entries)
  {
  }

  /** `c` leads term 2 with an entry of its own. */
  lemma SecondElection(s: Cluster, a: Id, b: Id, c: Id, d: Id, e: Id)
      returns (steps: seq<Step>, s': Cluster, matches: map<Id, nat>)
    requires AfterFirst(s, a, b, c, d, e)
    ensures Leads(WithoutCompaction, s, steps, s') && Team(s') && AreFive(s'.servers, a, b, c, d, e)
    ensures AckOf(b, a, 1, 0, 2) in s'.sent
    ensures Leading(s', c, 2, LogY(), 1, matches) && Idle(s', a, 1, Leader, LogX()) && Idle(s', b, 1, Follower, LogX())
    ensures Idle(s', d, 2, Follower, []) && Idle(s', e, 2, Follower, [])
  {
    hide Team, AreFive, Idle, Leads, Leading, Same, Blank, After, Allowed, LogX, LogY, LastTerm, UpToDate, AckOf;
    FiveDiffer(s.servers, a, b, c, d, e);
    LogFacts();
    var won, s1, matches1 := Elect(s, c, d, e, 1, Follower, [], 1, Follower, [], 0, Follower, []);
    SameKeeps(s, s1, {c, d, e});
    SubmitEffect(s1, c, 2, [], 1, matches1, Y);
    OneMore(WithoutCompaction, s, won, s1, Submit(c, Y));
    steps, s', matches := won + [Submit(c, Y)], After(s1, Submit(c, Y)), matches1;
    SameKeeps(s1, s', {c});
    IdleStays(s, s1, {c, d, e}, a, 1, Leader, LogX());
    IdleStays(s, s1, {c, d, e}, b, 1, Follower, LogX());
    IdleStays(s1, s', {c}, a, 1, Leader, LogX());
    IdleStays(s1, s', {c}, b, 1, Follower, LogX());
    IdleStays(s1, s', {c}, d, 2, Follower, []);
    IdleStays(s1, s', {c}, e, 2, Follower, []);
  }

  /** It ships the entry to everyone but `b`; `a` overwrites its two. */
  lemma SecondTerm(s: Cluster, a: Id, b: Id, c: Id, d: Id, e: Id) returns (steps: seq<Step>, s': Cluster)
    requires AfterFirst(s, a, b, c, d, e)
    ensures Leads(WithoutCompaction, s, steps, s') && AfterSecond(s', a, b, c, d, e)
  {
    hide Team, AreFive, Idle, Leads, Leading, Same, MergesTo, AckOf, LogX, LogY, LogZ, LogW, UpToDate, LastTerm;
    MergeFacts();
    var won, s1, matches := SecondElection(s, a, b, c, d, e);
    FiveDiffer(s1.servers, a, b, c, d, e);
    var toA, s2 := Ship(s1, c, a, 2, LogY(), 1, matches, 1, Leader, LogX(), LogY());
    var rest, s3 := SecondShipped(s2, a, b, c, d, e, matches) by {
      SameKeeps(s1, s2, {a});
      IdleStays(s1, s2, {a}, b, 1, Follower, LogX());
      IdleStays(s1, s2, {a}, d, 2, Follower, []);
      IdleStays(s1, s2, {a}, e, 2, Follower, []);
    }
    LeadsOn(WithoutCompaction, s, won, s1, toA, s2);
    LeadsOn(WithoutCompaction, s, won + toA, s2, rest, s3);
    steps, s' := won + toA + rest, s3;
  }

  lemma SecondShipped(s: Cluster, a: Id, b: Id, c: Id, d: Id, e: Id, matches: map<Id, nat>)
      returns (steps: seq<Step>, s': Cluster)
    requires Team(s) && AreFive(s.servers, a, b, c, d, e) && AckOf(b, a, 1, 0, 2) in s.sent
    requires Leading(s, c, 2, LogY(), 1, matches) && Idle(s, a, 2, Follower, LogY()) && Idle(s, b, 1, Follower, LogX())
    requires Idle(s, d, 2, Follower, []) && Idle(s, e, 2, Follower, [])
    ensures Leads(WithoutCompaction, s, steps, s') && AfterSecond(s', a, b, c, d, e)
  {
    hide Team, AreFive, Idle, Leads, Leading, Same, MergesTo, AckOf, LogX, LogY, LogZ, LogW, UpToDate, LastTerm;
    MergeFacts();
    FiveDiffer(s.servers, a, b, c, d, e);
    var toD, s1 := Ship(s, c, d, 2, LogY(), 1, matches, 2, Follower, [], LogY());
    SameKeeps(s, s1, {d});
    IdleStays(s, s1, {d}, e, 2, Follower, []);
    var toE, s2 := Ship(s1, c, e, 2, LogY(), 1, matches, 2, Follower, [], LogY());
    SameKeeps(s1, s2, {e});
    LeadingIsIdle(s2, c, 2, LogY(), 1, matches);
    IdleStays(s, s1, {d}, a, 2, Follower, LogY());
    IdleStays(s, s1, {d}, b, 1, Follower, LogX());
    IdleStays(s1, s2, {e}, a, 2, Follower, LogY());
    IdleStays(s1, s2, {e}, b, 1, Follower, LogX());
    IdleStays(s1, s2, {e}, d, 2, Follower, LogY());
    LeadsOn(WithoutCompaction, s, toD, s1, toE, s2);
    steps, s' := toD + toE, s2;
  }

  /** `a` leads again, with the entry of term 2 and one of its own, which only `d` gets. Two
      acknowledgements are under way to it: the slow one of `b` and the one of `d`. */
  ghost predicate BeforeSlowAck(s: Cluster, a: Id, b: Id, c: Id, d: Id, e: Id, matches: map<Id, nat>) {
    && Team(s) && AreFive(s.servers, a, b, c, d, e) && AckOf(b, a, 1, 0, 2) in s.sent && AckOf(d, a, 3, 1, 1) in s.sent
    && Leading(s, a, 3, LogZ(), 2, matches) && Blank(s.servers - {a}, matches)
    && Idle(s, b, 1, Follower, LogX()) && Idle(s, c, 3, Follower, LogY())
    && Idle(s, d, 3, Follower, LogZ()) && Idle(s, e, 2, Follower, LogY())
  }

  lemma ThirdElection(s: Cluster, a: Id, b: Id, c: Id, d: Id, e: Id)
      returns (steps: seq<Step>, s': Cluster, matches: map<Id, nat>)
    requires AfterSecond(s, a, b, c, d, e)
    ensures Leads(WithoutCompaction, s, steps, s') && Team(s') && AreFive(s'.servers, a, b, c, d, e)
    ensures AckOf(b, a, 1, 0, 2) in s'.sent
    ensures Leading(s', a, 3, LogZ(), 2, matches) && Blank(s'.servers - {a}, matches)
    ensures Idle(s', b, 1, Follower, LogX()) && Idle(s', c, 3, Follower, LogY())
    ensures Idle(s', d, 3, Follower, LogY()) && Idle(s', e, 2, Follower, LogY())
  {
    hide Team, AreFive, Idle, Leads, Leading, Same, Blank, After, Allowed, LogX, LogY, LogZ, LogW, LastTerm, UpToDate,
      AckOf;
    FiveDiffer(s.servers, a, b, c, d, e);
    LogFacts();
    var won, s1, matches1 := Elect(s, a, c, d, 2, Follower, LogY(), 2, Leader, LogY(), 2, Follower, LogY());
    SameKeeps(s, s1, {a, c, d});
    SubmitEffect(s1, a, 3, LogY(), 2, matches1, Z);
    OneMore(WithoutCompaction, s, won, s1, Submit(a, Z));
    steps, s', matches := won + [Submit(a, Z)], After(s1, Submit(a, Z)), matches1;
    SameKeeps(s1, s', {a});
    IdleStays(s, s1, {a, c, d}, b, 1, Follower, LogX());
    IdleStays(s, s1, {a, c, d}, e, 2, Follower, LogY());
    IdleStays(s1, s', {a}, b, 1, Follower, LogX());
    IdleStays(s1, s', {a}, c, 3, Follower, LogY());
    IdleStays(s1, s', {a}, d, 3, Follower, LogY());
    IdleStays(s1, s', {a}, e, 2, Follower, LogY());
  }

  lemma ThirdTerm(s: Cluster, a: Id, b: Id, c: Id, d: Id, e: Id)
      returns (steps: seq<Step>, s': Cluster, matches: map<Id, nat>)
    requires AfterSecond(s, a, b, c, d, e)
    ensures Leads(WithoutCompaction, s, steps, s') && BeforeSlowAck(s', a, b, c, d, e, matches)
  {
    hide Team, AreFive, Idle, Leads, Leading, Same, Blank, MergesTo, LogX, LogY, LogZ, LogW, LastTerm, UpToDate, AckOf;
    MergeFacts();
    LogFacts();
    var won, s1, matches1 := ThirdElection(s, a, b, c, d, e);
    FiveDiffer(s1.servers, a, b, c, d, e);
    var toD, s2 := Ship(s1, a, d, 3, LogZ(), 2, matches1, 3, Follower, LogY(), LogZ());
    SameKeeps(s1, s2, {d});
    IdleStays(s1, s2, {d}, b, 1, Follower, LogX());
    IdleStays(s1, s2, {d}, c, 3, Follower, LogY());
    IdleStays(s1, s2, {d}, e, 2, Follower, LogY());
    LeadsOn(WithoutCompaction, s, won, s1, toD, s2);
    steps, s', matches := won + toD, s2, matches1;
  }

  /** After the slow acknowledgement the one of `d` is enough: `a` applies an entry that three of the
      five do not have. */
  ghost predicate AfterThird(s: Cluster, a: Id, b: Id, c: Id, d: Id, e: Id) {
    && Team(s) && AreFive(s.servers, a, b, c, d, e) && Applied(s, a, LogZ())
    && Idle(s, b, 1, Follower, LogX()) && Idle(s, c, 3, Follower, LogY())
    && Idle(s, d, 3, Follower, LogZ()) && Idle(s, e, 2, Follower, LogY())
  }

  function SlowAck(a: Id, b: Id): Step {
    DeliverAppendReply(AckOf(b, a, 1, 0, 2), 0)
  }

  lemma SlowAckArrives(s: Cluster, a: Id, b: Id, c: Id, d: Id, e: Id, matches: map<Id, nat>)
      returns (s1: Cluster, steps: seq<Step>, s': Cluster)
    requires BeforeSlowAck(s, a, b, c, d, e, matches)
    ensures NoCompaction(s) && Enabled(s, SlowAck(a, b)) && !RepliesInTerm(s, SlowAck(a, b))
    ensures s1 == After(s, SlowAck(a, b))
    ensures Leads(WithoutCompaction, s1, steps, s') && AfterThird(s', a, b, c, d, e)
  {
    hide Team, AreFive, Idle, Leads, Leading, Knowing, Applied, Same, Blank, After, Allowed, Enabled, RepliesInTerm;
    hide NoCompaction, LogX, LogY, LogZ, AckOf;
    LogFacts();
    FiveDiffer(s.servers, a, b, c, d, e);
    FirstAckEffect(s, a, b, 3, LogZ(), 2, matches, 1, 0, 2);
    s1 := After(s, SlowAck(a, b));
    SameKeeps(s, s1, {a});
    SecondAckEffect(s1, a, b, d, 3, LogZ(), matches, 1, 1);
    var step := DeliverAppendReply(AckOf(d, a, 3, 1, 1), 2);
    StepLeads(WithoutCompaction, s1, step);
    steps, s' := [step], After(s1, step);
    SameKeeps(s1, s', {a});
    IdleStays(s, s1, {a}, b, 1, Follower, LogX());
    IdleStays(s, s1, {a}, c, 3, Follower, LogY());
    IdleStays(s, s1, {a}, d, 3, Follower, LogZ());
    IdleStays(s, s1, {a}, e, 2, Follower, LogY());
    IdleStays(s1, s', {a}, b, 1, Follower, LogX());
    IdleStays(s1, s', {a}, c, 3, Follower, LogY());
    IdleStays(s1, s', {a}, d, 3, Follower, LogZ());
    IdleStays(s1, s', {a}, e, 2, Follower, LogY());
  }

  lemma FourthElection(s: Cluster, a: Id, b: Id, c: Id, d: Id, e: Id)
      returns (steps: seq<Step>, s': Cluster, matches: map<Id, nat>)
    requires AfterThird(s, a, b, c, d, e)
    ensures Leads(WithoutCompaction, s, steps, s') && Team(s') && AreFive(s'.servers, a, b, c, d, e)
    ensures Applied(s', a, LogZ())
    ensures Leading(s', c, 4, LogW(), 2, matches) && Blank(s'.servers - {c}, matches)
    ensures Idle(s', d, 3, Follower, LogZ()) && Idle(s', e, 4, Follower, LogY())
  {
    hide Team, AreFive, Idle, Leads, Leading, Applied, Same, Blank, After, Allowed, LogX, LogY, LogZ, LogW, LastTerm,
      UpToDate;
    FiveDiffer(s.servers, a, b, c, d, e);
    LogFacts();
    var won, s1, matches1 := Elect(s, c, b, e, 3, Follower, LogY(), 1, Follower, LogX(), 2, Follower, LogY());
    SameKeeps(s, s1, {c, b, e});
    SubmitEffect(s1, c, 4, LogY(), 2, matches1, W);
    OneMore(WithoutCompaction, s, won, s1, Submit(c, W));
    steps, s', matches := won + [Submit(c, W)], After(s1, Submit(c, W)), matches1;
    SameKeeps(s1, s', {c});
    AppliedStays(s, s1, {c, b, e}, a, LogZ());
    AppliedStays(s1, s', {c}, a, LogZ());
    IdleStays(s, s1, {c, b, e}, d, 3, Follower, LogZ());
    IdleStays(s1, s', {c}, d, 3, Follower, LogZ());
    IdleStays(s1, s', {c}, e, 4, Follower, LogY());
  }

  lemma FourthShipped(s: Cluster, a: Id, b: Id, c: Id, d: Id, e: Id)
      returns (steps: seq<Step>, s': Cluster, matches: map<Id, nat>)
    requires AfterThird(s, a, b, c, d, e)
    ensures Leads(WithoutCompaction, s, steps, s') && Team(s') && AreFive(s'.servers, a, b, c, d, e)
    ensures Applied(s', a, LogZ())
    ensures Leading(s', c, 4, LogW(), 2, matches) && Blank(s'.servers - {c}, matches)
    ensures AckOf(e, c, 4, 1, 1) in s'.sent && AckOf(d, c, 4, 1, 1) in s'.sent
  {
    hide Team, AreFive, Idle, Leads, Leading, Applied, Same, Blank, MergesTo, LogX, LogY, LogZ, LogW, AckOf;
    MergeFacts();
    LogFacts();
    var won, s1, matches1 := FourthElection(s, a, b, c, d, e);
    FiveDiffer(s1.servers, a, b, c, d, e);
    var toE, s2 := Ship(s1, c, e, 4, LogW(), 2, matches1, 4, Follower, LogY(), LogW());
    SameKeeps(s1, s2, {e});
    AppliedStays(s1, s2, {e}, a, LogZ());
    IdleStays(s1, s2, {e}, d, 3, Follower, LogZ());
    var toD, s3 := Ship(s2, c, d, 4, LogW(), 2, matches1, 3, Follower, LogZ(), LogW());
    SameKeeps(s2, s3, {d});
    AppliedStays(s2, s3, {d}, a, LogZ());
    LeadsOn(WithoutCompaction, s, won, s1, toE, s2);
    LeadsOn(WithoutCompaction, s, won + toE, s2, toD, s3);
    steps, s', matches := won + toE + toD, s3, matches1;
  }

  /** The others go on without it: `c` leads term 4, overwrites the entry and applies its own. */
  lemma FourthTerm(s: Cluster, a: Id, b: Id, c: Id, d: Id, e: Id) returns (steps: seq<Step>, s': Cluster)
    requires AfterThird(s, a, b, c, d, e)
    ensures Leads(WithoutCompaction, s, steps, s') && Team(s') && Applied(s', a, LogZ()) && Applied(s', c, LogW())
  {
    hide Team, AreFive, Idle, Leads, Leading, Knowing, Applied, Same, Blank, After, Allowed, LogX, LogY, LogZ, LogW,
      AckOf;
    LogFacts();
    var shipped, s1, matches := FourthShipped(s, a, b, c, d, e);
    FiveDiffer(s1.servers, a, b, c, d, e);
    var ack, ack' := DeliverAppendReply(AckOf(e, c, 4, 1, 1), 0), DeliverAppendReply(AckOf(d, c, 4, 1, 1), 2);
    FirstAckEffect(s1, c, e, 4, LogW(), 2, matches, 4, 1, 1);
    IsAllowed(s1, ack);
    OneMore(WithoutCompaction, s, shipped, s1, ack);
    var s2 := After(s1, ack);
    SameKeeps(s1, s2, {c});
    AppliedStays(s1, s2, {c}, a, LogZ());
    SecondAckEffect(s2, c, e, d, 4, LogW(), matches, 1, 1);
    OneMore(WithoutCompaction, s, shipped + [ack], s2, ack');
    steps, s' := shipped + [ack] + [ack'], After(s2, ack');
    AppliedStays(s2, s', {c}, a, LogZ());
  }

  lemma IsAllowed(s: Cluster, step: Step)
    requires NoCompaction(s) && Enabled(s, step) && RepliesInTerm(s, step)
    ensures Allowed(WithoutCompaction, s, step)
  {
  }

  /** Any five fresh nodes can get there, with a single step outside the hypothesis on replies: the
      acknowledgement that `b` gave `a` in term 1 is recorded in term 3. In the end `a` and `c` have
      applied equally many entries, the second ones differ, and so do their stores. */
  lemma FiveNodesDiverge(s0: Cluster, a: Id, b: Id, c: Id, d: Id, e: Id)
      returns (before: seq<Step>, s1: Cluster, stale: Step, s2: Cluster, after: seq<Step>, s3: Cluster)
    requires Init(s0) && AreFive(s0.servers, a, b, c, d, e) && s0.snapshotInterval >= 3
    ensures Leads(WithoutCompaction, s0, before, s1)
    ensures NoCompaction(s1) && Enabled(s1, stale) && !RepliesInTerm(s1, stale) && s2 == After(s1, stale)
    ensures stale.DeliverAppendReply? && stale.m.from == b && stale.m.to == a && stale.m.requestTerm == 1
    ensures Leads(WithoutCompaction, s2, after, s3) && NoCompaction(s3)
    ensures a in s3.nodes && c in s3.nodes
    ensures var p, q := s3.nodes[a], s3.nodes[c];
            && p.lastApplied == q.lastApplied == 2 && p.log.Holds(2) && q.log.Holds(2)
            && p.log.At(2) != q.log.At(2) && p.store != q.store
  {
    hide Leads, After, Enabled, RepliesInTerm, AreFive;
    hide AfterFirst, AfterSecond, AfterThird, BeforeSlowAck;
    var first, t1 := FirstTerm(s0, a, b, c, d, e);
    var second, t2 := SecondTerm(t1, a, b, c, d, e);
    var third, t3, matches := ThirdTerm(t2, a, b, c, d, e);
    LeadsOn(WithoutCompaction, s0, first, t1, second, t2);
    LeadsOn(WithoutCompaction, s0, first + second, t2, third, t3);
    before, s1, stale := first + second + third, t3, SlowAck(a, b);
    var t4, committed, t5 := SlowAckArrives(t3, a, b, c, d, e, matches);
    var fourth, t6 := FourthTerm(t5, a, b, c, d, e);
    LeadsOn(WithoutCompaction, t4, committed, t5, fourth, t6);
    s2, after, s3 := t4, committed + fourth, t6;
    DifferentStores();
  }

  /** So the hypothesis on replies is needed, for any snapshot interval from three on: there is a run, under all
      other hypotheses, that ends in two nodes that disagree on what they have applied. */
  lemma StaleAckBreaksSafety(interval: nat)
      returns (s0: Cluster, before: seq<Step>, s1: Cluster, stale: Step, s2: Cluster, after: seq<Step>, s3: Cluster,
          p: Id, q: Id)
    requires interval >= 3
    ensures Init(s0) && s0.snapshotInterval == interval && Leads(WithoutCompaction, s0, before, s1)
    ensures Enabled(s1, stale) && NoCompaction(s1) && !RepliesInTerm(s1, stale) && stale.DeliverAppendReply?
    ensures s2 == After(s1, stale) && Leads(WithoutCompaction, s2, after, s3) && NoCompaction(s3)
    ensures p in s3.nodes && q in s3.nodes && s3.nodes[p].lastApplied == s3.nodes[q].lastApplied == 2
    ensures s3.nodes[p].log.Holds(2) && s3.nodes[q].log.Holds(2)
    ensures s3.nodes[p].log.At(2) != s3.nodes[q].log.At(2) && s3.nodes[p].store != s3.nodes[q].store
  {
    hide Leads, After, Enabled, RepliesInTerm, NoCompaction;
    var a, b, c, d, e := NodeId("a"), NodeId("b"), NodeId("c"), NodeId("d"), NodeId("e");
    s0 := FreshFive(a, b, c, d, e, interval);
    hide Init, AreFive;
    before, s1, stale, s2, after, s3 := FiveNodesDiverge(s0, a, b, c, d, e);
    p, q := a, c;
  }

  lemma FreshFive(a: Id, b: Id, c: Id, d: Id, e: Id, interval: nat) returns (s: Cluster)
    requires a != b && a != c && a != d && a != e && b != c && b != d && b != e && c != d && c != e && d != e
    ensures Init(s) && AreFive(s.servers, a, b, c, d, e) && s.snapshotInterval == interval
  {
    var nodes := map[a := FRESH_NODE][b := FRESH_NODE][c := FRESH_NODE][d := FRESH_NODE][e := FRESH_NODE];
    var servers := {a, b, c, d, e};
    assert nodes.Keys == servers;
    assert servers == {a} + {b} + {c} + {d} + {e};
    s := Cluster(servers, interval, nodes, {}, NO_HISTORY);
  }

  lemma DifferentStores()
    ensures ApplyLog(LogZ()) != ApplyLog(LogW())
  {
    assert LogZ()[..1] == LogY() && LogW()[..1] == LogY();
    var y := ApplyLog(LogY());
    assert ApplyLog(LogZ()) == y["k" := "z"] && ApplyLog(LogW()) == y["k" := "w"];
    assert y["k" := "z"]["k"] == "z" && y["k" := "w"]["k"] == "w";
    assert "z"[0] != "w"[0];
  }
}
