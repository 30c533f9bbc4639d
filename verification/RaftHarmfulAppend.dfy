/** Why a Raft run must not let a node accept an AppendEntries that repeats, inside its snapshot, what it
    has compacted: three nodes that compact, and one such AppendEntries, after which two of them end with
    different stores though they have applied equally many entries. */
module RaftHarmfulAppend {
  import opened Wrappers
  import opened RaftLogs
  import opened RaftNodes
  import opened RaftCompaction
  import opened RaftCluster
  import opened RaftPaths

  // ----- States of the three -----

  ghost predicate Trio(s: Cluster) {
    |s.servers| == 3 && s.nodes.Keys == s.servers && s.snapshotInterval >= 2
  }

  /** A node that stands for a whole log, of which it has applied all it knows committed. */
  ghost predicate At(s: Cluster, n: Id, term: nat, role: Role, full: seq<Entry>, applied: nat) {
    && n in s.nodes && n in s.servers
    && IsAt(s.nodes[n], s.snapshotInterval, term, role, full, applied)
    && s.nodes[n].matchIndex.Keys <= s.servers - {n}
  }

  ghost predicate IsAt(node: NodeState, interval: nat, term: nat, role: Role, full: seq<Entry>, applied: nat) {
    && node.currentTerm == term && node.role == role
    && StandsFor(node, full) && node.commitIndex == applied && node.lastApplied == applied
    && applied - node.log.lastIncludedIndex < interval
  }

  ghost predicate Same(s: Cluster, s': Cluster, except: set<Id>) {
    && s.servers == s'.servers && s.nodes.Keys == s'.nodes.Keys && s.snapshotInterval == s'.snapshotInterval
    && s.sent <= s'.sent
    && forall n | n in s.nodes && n !in except :: s'.nodes[n] == s.nodes[n]
  }

  lemma SameKeeps(s: Cluster, s': Cluster, except: set<Id>)
    requires Same(s, s', except)
    ensures s'.servers == s.servers && s.sent <= s'.sent && s'.snapshotInterval == s.snapshotInterval
  {
  }

  lemma AtStays(s: Cluster, s': Cluster, except: set<Id>, n: Id, term: nat, role: Role, full: seq<Entry>, applied: nat)
    requires At(s, n, term, role, full, applied) && Same(s, s', except) && n !in except
    ensures At(s', n, term, role, full, applied)
  {
  }

  lemma OneMoves(s: Cluster, s': Cluster, n: Id, node': NodeState)
    requires Trio(s) && n in s.servers
    requires s' == s.(nodes := s.nodes[n := node'], sent := s'.sent, history := s'.history) && s.sent <= s'.sent
    ensures Trio(s') && Same(s, s', {n}) && s'.nodes[n] == node'
  {
  }

  lemma AtFacts(s: Cluster, n: Id, term: nat, role: Role, full: seq<Entry>, applied: nat)
    requires At(s, n, term, role, full, applied)
    ensures n in s.nodes && n in s.servers && s.nodes[n].log.lastIncludedIndex <= s.nodes[n].lastApplied
    ensures s.nodes[n].currentTerm == term && s.nodes[n].role == role && s.nodes[n].log.Length() == |full|
    ensures s.nodes[n].commitIndex == applied <= |full|
    ensures s.nodes[n].log.TermAt(|full|) == TermOf(full, |full|)
  {
    RepresentedTerm(s.nodes[n].log, full, |full|);
  }

  /** What does not touch the log keeps a node where it is. */
  lemma SameLogIsAt(node: NodeState, node': NodeState, interval: nat, term: nat, role: Role, full: seq<Entry>,
      applied: nat)
    requires IsAt(node, interval, term, role, full, applied)
    requires node' == node.(currentTerm := node'.currentTerm, votedFor := node'.votedFor, role := node'.role,
                            votes := node'.votes, nextIndex := node'.nextIndex, matchIndex := node'.matchIndex)
    ensures IsAt(node', interval, node'.currentTerm, node'.role, full, applied)
  {
  }

  // ----- Elections -----

  function Ask(n: Id, term: nat, full: seq<Entry>): VoteRequest {
    VoteRequest(term, n, |full|, TermOf(full, |full|))
  }

  ghost predicate Asking(s: Cluster, n: Id, term: nat, full: seq<Entry>, applied: nat) {
    && At(s, n, term, Candidate, full, applied)
    && term in s.nodes[n].votes && s.nodes[n].votes[term] == {n}
  }

  lemma TimeoutEffect(s: Cluster, n: Id, term: nat, role: Role, full: seq<Entry>, applied: nat)
    requires Trio(s) && At(s, n, term, role, full, applied) && role != Leader
    ensures Allowed(WithCompaction, s, Timeout(n)) && Enabled(s, Timeout(n))
    ensures var s' := After(s, Timeout(n));
            && Trio(s') && Same(s, s', {n}) && Asking(s', n, term + 1, full, applied)
            && forall p | p in s.servers && p != n :: VoteCall(p, Ask(n, term + 1, full)) in s'.sent
  {
    AtFacts(s, n, term, role, full, applied);
    var node, s' := s.nodes[n], After(s, Timeout(n));
    var node' := StartElection(node, s.ConfigOf(n));
    SameLogIsAt(node, node', s.snapshotInterval, term, role, full, applied);
    hide IsAt, StandsFor;
    OneMoves(s, s', n, node');
    assert VoteRequestOf(node', s.ConfigOf(n)) == Ask(n, term + 1, full);
    hide Trio, Same;
  }

  /** A node of an earlier term gets to the term of the request, and votes if its log is no fresher. */
  lemma VoteEffect(s: Cluster, n: Id, p: Id, term: nat, full: seq<Entry>,
                   oldTerm: nat, role: Role, log: seq<Entry>, applied: nat)
    requires Trio(s) && At(s, p, oldTerm, role, log, applied) && oldTerm < term && n != p
    requires VoteCall(p, Ask(n, term, full)) in s.sent
    ensures var step := DeliverVoteCall(VoteCall(p, Ask(n, term, full)));
            && Allowed(WithCompaction, s, step) && Enabled(s, step)
            && var s' := After(s, step);
               && Trio(s') && Same(s, s', {p}) && At(s', p, term, Follower, log, applied)
               && (UpToDate(|full|, TermOf(full, |full|), |log|, TermOf(log, |log|)) ==>
                     VoteReply(p, n, term, term, true) in s'.sent)
               && s'.nodes[p].log == s.nodes[p].log
  {
    AtFacts(s, p, oldTerm, role, log, applied);
    var node, step := s.nodes[p], DeliverVoteCall(VoteCall(p, Ask(n, term, full)));
    var (node', granted) := HandleRequestVote(node, Ask(n, term, full));
    VoteShape(node, Ask(n, term, full));
    SameLogIsAt(node, node', s.snapshotInterval, oldTerm, role, log, applied);
    hide IsAt, StandsFor, HandleRequestVote;
    OneMoves(s, After(s, step), p, node');
    hide Trio, Same;
  }

  lemma VoteShape(node: NodeState, r: VoteRequest)
    requires r.term > node.currentTerm
    ensures var (node', granted) := HandleRequestVote(node, r);
            && node' == node.(currentTerm := r.term, votedFor := node'.votedFor, role := Follower)
            && granted == UpToDate(r.lastLogIndex, r.lastLogTerm, node.log.Length(), node.log.TermAt(node.log.Length()))
  {
  }

  /** A leader that would ship to `p` from `next` on. */
  ghost predicate Leading(s: Cluster, n: Id, term: nat, full: seq<Entry>, applied: nat, p: Id, next: nat,
      matches: map<Id, nat>) {
    && At(s, n, term, Leader, full, applied)
    && p in s.servers - {n} && p in s.nodes[n].nextIndex && s.nodes[n].nextIndex[p] == next
    && s.nodes[n].matchIndex == matches
  }

  ghost predicate Blank(peers: set<Id>, matches: map<Id, nat>) {
    matches.Keys == peers && forall p | p in matches :: matches[p] == 0
  }

  lemma FreshLeader(node: NodeState, c: Config)
    requires node.matchIndex.Keys <= c.peers
    ensures var node' := BecomeLeader(node, c);
            && node' == node.(role := Leader, nextIndex := node'.nextIndex, matchIndex := node'.matchIndex)
            && (forall x | x in c.peers :: x in node'.nextIndex && node'.nextIndex[x] == node.log.Length() + 1)
            && Blank(c.peers, node'.matchIndex)
  {
    hide Fill;
    FillValues(node.nextIndex, c.peers, node.log.Length() + 1);
    FillValues(node.matchIndex, c.peers, 0);
    assert node.matchIndex.Keys + c.peers == c.peers;
  }

  lemma VoteCounted(node: NodeState, c: Config, p: Id)
    requires node.role == Candidate && node.currentTerm in node.votes && node.votes[node.currentTerm] == {c.me}
    requires p != c.me && c.Majority() == 1
    ensures OnVoteReply(node, c, p, node.currentTerm, node.currentTerm, true)
            == BecomeLeader(node.(votes := node.votes[node.currentTerm := {c.me} + {p}]), c)
  {
    hide BecomeLeader;
    assert |{c.me} + {p}| == 2;
  }

  lemma VoteReplyMoves(s: Cluster, m: Message, node': NodeState)
    requires Trio(s) && m in s.sent && m.VoteReply? && m.to in s.servers && m.requestTerm == s.nodes[m.to].currentTerm
    requires s.nodes[m.to].log.lastIncludedIndex <= s.nodes[m.to].lastApplied
    requires node' == OnVoteReply(s.nodes[m.to], s.ConfigOf(m.to), m.from, m.requestTerm, m.replyTerm, m.granted)
    requires s.nodes[m.to].role == Candidate && node'.role == Leader ==> m.requestTerm in node'.votes
    ensures Allowed(WithCompaction, s, DeliverVoteReply(m)) && Enabled(s, DeliverVoteReply(m))
    ensures var s' := After(s, DeliverVoteReply(m)); Trio(s') && Same(s, s', {m.to}) && s'.nodes[m.to] == node'
  {
    hide OnVoteReply, RecordElection;
    OneMoves(s, After(s, DeliverVoteReply(m)), m.to, node');
    hide Trio, Same;
  }

  lemma MajorityOfThree(s: Cluster, n: Id)
    requires |s.servers| == 3 && n in s.servers
    ensures s.ConfigOf(n).Majority() == 1
  {
    assert {n} + (s.servers - {n}) == s.servers;
  }

  /** One vote besides its own makes a leader. */
  lemma WinEffect(s: Cluster, n: Id, p: Id, term: nat, full: seq<Entry>, applied: nat) returns (matches: map<Id, nat>)
    requires Trio(s) && Asking(s, n, term, full, applied) && p in s.servers && p != n
    requires VoteReply(p, n, term, term, true) in s.sent
    ensures var step := DeliverVoteReply(VoteReply(p, n, term, term, true));
            && Allowed(WithCompaction, s, step) && Enabled(s, step)
            && var s' := After(s, step);
               && Trio(s') && Same(s, s', {n}) && Blank(s.servers - {n}, matches)
               && forall q | q in s.servers && q != n :: Leading(s', n, term, full, applied, q, |full| + 1, matches)
  {
    AtFacts(s, n, term, Candidate, full, applied);
    MajorityOfThree(s, n);
    var node, c, m := s.nodes[n], s.ConfigOf(n), VoteReply(p, n, term, term, true);
    VoteCounted(node, c, p);
    FreshLeader(node.(votes := node.votes[term := {n} + {p}]), c);
    var node' := OnVoteReply(node, c, p, term, term, true);
    matches := node'.matchIndex;
    hide OnVoteReply, Blank, BecomeLeader;
    VoteReplyMoves(s, m, node');
    SameLogIsAt(node, node', s.snapshotInterval, term, Candidate, full, applied);
    hide IsAt, StandsFor, Trio, After, Enabled, Allowed;
  }

  /** `n` is elected by `p`. */
  lemma Elect(s: Cluster, n: Id, p: Id, term: nat, role: Role, full: seq<Entry>, applied: nat,
              oldTerm: nat, oldRole: Role, log: seq<Entry>, appliedP: nat)
      returns (steps: seq<Step>, s': Cluster, matches: map<Id, nat>)
    requires Trio(s) && p != n && role != Leader && oldTerm <= term
    requires At(s, n, term, role, full, applied) && At(s, p, oldTerm, oldRole, log, appliedP)
    requires UpToDate(|full|, TermOf(full, |full|), |log|, TermOf(log, |log|))
    ensures Leads(WithCompaction, s, steps, s') && Trio(s') && Same(s, s', {n, p})
    ensures Blank(s.servers - {n}, matches)
    ensures forall q | q in s.servers && q != n :: Leading(s', n, term + 1, full, applied, q, |full| + 1, matches)
    ensures forall q | q in s.servers && q != n :: VoteCall(q, Ask(n, term + 1, full)) in s'.sent
    ensures At(s', p, term + 1, Follower, log, appliedP) && p in s.nodes && s'.nodes[p].log == s.nodes[p].log
  {
    hide Trio, At, Asking, Leading, Blank, Leads, Allowed, Enabled, After, UpToDate;
    AtIsNode(s, p, oldTerm, oldRole, log, appliedP);
    AtIsNode(s, n, term, role, full, applied);
    var t := term + 1;
    var ask, vote := DeliverVoteCall(VoteCall(p, Ask(n, t, full))), DeliverVoteReply(VoteReply(p, n, t, t, true));
    TimeoutEffect(s, n, term, role, full, applied);
    StepLeads(WithCompaction, s, Timeout(n));
    var s1 := After(s, Timeout(n));
    AtStays(s, s1, {n}, p, oldTerm, oldRole, log, appliedP);
    VoteEffect(s1, n, p, t, full, oldTerm, oldRole, log, appliedP);
    OneMore(WithCompaction, s, [Timeout(n)], s1, ask);
    var s2 := After(s1, ask);
    AskingStays(s1, s2, {p}, n, t, full, applied);
    matches := WinEffect(s2, n, p, t, full, applied);
    OneMore(WithCompaction, s, [Timeout(n)] + [ask], s2, vote);
    steps, s' := [Timeout(n)] + [ask] + [vote], After(s2, vote);
    AtStays(s2, s', {n}, p, t, Follower, log, appliedP);
  }

  lemma AtIsNode(s: Cluster, n: Id, term: nat, role: Role, full: seq<Entry>, applied: nat)
    requires At(s, n, term, role, full, applied)
    ensures n in s.nodes && n in s.servers
  {
  }

  lemma AskingStays(s: Cluster, s': Cluster, except: set<Id>, n: Id, term: nat, full: seq<Entry>, applied: nat)
    requires Asking(s, n, term, full, applied) && Same(s, s', except) && n !in except
    ensures Asking(s', n, term, full, applied)
  {
  }

  lemma LeadingStays(s: Cluster, s': Cluster, except: set<Id>, n: Id, term: nat, full: seq<Entry>, applied: nat,
                     p: Id, next: nat, matches: map<Id, nat>)
    requires Leading(s, n, term, full, applied, p, next, matches) && Same(s, s', except) && n !in except
    ensures Leading(s', n, term, full, applied, p, next, matches)
  {
  }

  // ----- Replication -----

  lemma SubmitEffect(s: Cluster, n: Id, term: nat, full: seq<Entry>, applied: nat, p: Id, next: nat,
      matches: map<Id, nat>, command: Command)
    requires Trio(s) && Leading(s, n, term, full, applied, p, next, matches)
    ensures var step := Submit(n, command);
            && Allowed(WithCompaction, s, step) && Enabled(s, step)
            && var s' := After(s, step);
               && Trio(s') && Same(s, s', {n})
               && Leading(s', n, term, full + [Entry(term, |full| + 1, command)], applied, p, next, matches)
  {
    AtFacts(s, n, term, Leader, full, applied);
    var node, e := s.nodes[n], Entry(term, |full| + 1, command);
    OneMoves(s, After(s, Submit(n, command)), n, SubmitCommand(node, command));
    LongerIsAt(node, s.snapshotInterval, term, full, applied, e);
    hide IsAt, StandsFor, Trio, Same;
  }

  lemma LongerIsAt(node: NodeState, interval: nat, term: nat, full: seq<Entry>, applied: nat, e: Entry)
    requires IsAt(node, interval, term, Leader, full, applied)
    ensures IsAt(node.(log := node.log.Append(e)), interval, term, Leader, full + [e], applied)
  {
    AppendKeepsRepresenting(node.log, full, e);
    assert (full + [e])[..|full|] == full[..|full|];
    SamePrefixes(full, full + [e], |full|, node.lastApplied);
    SamePrefixes(full, full + [e], |full|, node.log.lastIncludedIndex);
    hide ApplyLog, SnapshotOf, TermOf, LogState.Represents;
  }

  /** Entries of one term and one command, from an index on. */
  function Copies(term: nat, start: nat, command: Command, count: nat): (entries: seq<Entry>)
    ensures |entries| == count && forall e | e in entries :: e.term == term
  {
    if count == 0 then [] else Copies(term, start, command, count - 1) + [Entry(term, start + count - 1, command)]
  }

  lemma {:induction false} SubmitCopies(s: Cluster, n: Id, term: nat, full: seq<Entry>, applied: nat, p: Id, next: nat,
                                        matches: map<Id, nat>, command: Command, count: nat)
      returns (steps: seq<Step>, s': Cluster)
    requires Trio(s) && Leading(s, n, term, full, applied, p, next, matches)
    ensures Leads(WithCompaction, s, steps, s') && Trio(s') && Same(s, s', {n})
    ensures Leading(s', n, term, full + Copies(term, |full| + 1, command, count), applied, p, next, matches)
  {
    hide Trio, Leading, Leads, Allowed, Enabled, After;
    if count == 0 {
      assert full + [] == full;
      steps, s' := [], s;
      NoSteps(s);
    } else {
      var before, s1 := SubmitCopies(s, n, term, full, applied, p, next, matches, command, count - 1);
      var all := full + Copies(term, |full| + 1, command, count - 1);
      SubmitEffect(s1, n, term, all, applied, p, next, matches, command);
      OneMore(WithCompaction, s, before, s1, Submit(n, command));
      steps, s' := before + [Submit(n, command)], After(s1, Submit(n, command));
      var e := Entry(term, |full| + 1 + count - 1, command);
      assert all + [e] == full + (Copies(term, |full| + 1, command, count - 1) + [e]);
    }
  }

  lemma NoSteps(s: Cluster)
    ensures Leads(WithCompaction, s, [], s) && Same(s, s, {})
  {
  }

  function Shipped(n: Id, term: nat, full: seq<Entry>, next: nat, commit: nat): AppendRequest
    requires 1 <= next <= |full| + 1
  {
    AppendRequest(term, n, next - 1, TermOf(full, next - 1), full[next - 1..], commit)
  }

  lemma SendEffect(s: Cluster, n: Id, term: nat, full: seq<Entry>, applied: nat, p: Id, next: nat,
      matches: map<Id, nat>)
    requires Trio(s) && Leading(s, n, term, full, applied, p, next, matches) && applied < next <= |full| + 1
    ensures var step := SendAppend(n, p);
            && Allowed(WithCompaction, s, step) && Enabled(s, step)
            && var s' := After(s, step);
               && Trio(s') && Same(s, s', {}) && AppendCall(p, Shipped(n, term, full, next, applied)) in s'.sent
  {
    AtFacts(s, n, term, Leader, full, applied);
    var node := s.nodes[n];
    ShipsSuffix(node, s.ConfigOf(n), full, p, next);
    hide AppendRequestOf, IsAt, StandsFor;
    var s' := After(s, SendAppend(n, p));
    OneMoves(s, s', n, node);
    assert forall q | q in s.nodes :: s'.nodes[q] == s.nodes[q];
    hide Trio;
  }

  lemma ShipsSuffix(node: NodeState, c: Config, full: seq<Entry>, p: Id, next: nat)
    requires StandsFor(node, full) && node.role == Leader && p in node.nextIndex && node.nextIndex[p] == next
    requires node.lastApplied < next <= |full| + 1
    ensures AppendRequestOf(node, c, p) == Some(Shipped(c.me, node.currentTerm, full, next, node.commitIndex))
  {
    RepresentedTerm(node.log, full, next - 1);
    SuffixAgrees(node.log, full, next - 1);
    hide StandsFor;
  }

  /** A follower gets what comes right after its log, and what the leader has committed. */
  lemma ReceiveEffect(s: Cluster, r: AppendRequest, p: Id, term: nat, role: Role, full: seq<Entry>, applied: nat)
    requires Trio(s) && AppendCall(p, r) in s.sent && At(s, p, term, role, full, applied) && term <= r.term
    requires r.prevIndex == |full| && (full != [] ==> r.prevTerm == TermOf(full, |full|))
    requires r.leaderCommit <= |full + r.entries|
    ensures var step := DeliverAppendCall(AppendCall(p, r));
            && Allowed(WithCompaction, s, step) && Enabled(s, step)
            && var s' := After(s, step);
               && Trio(s') && Same(s, s', {p})
               && At(s', p, r.term, if r.term > term then Follower else role, full + r.entries,
                     Max(applied, r.leaderCommit))
               && AckOf(p, r.leader, r.term, |full|, |r.entries|) in s'.sent
               && (applied == 0 && r.leaderCommit == s.snapshotInterval ==>
                     s'.nodes[p].log.lastIncludedIndex == s.snapshotInterval)
               && (r.leaderCommit <= applied ==> s'.nodes[p].log.lastIncludedIndex == s.nodes[p].log.lastIncludedIndex)
  {
    AtFacts(s, p, term, role, full, applied);
    var node, step := s.nodes[p], DeliverAppendCall(AppendCall(p, r));
    var node' := HandleAppendEntries(node, r, s.snapshotInterval).0;
    ReceivedNode(node, s.snapshotInterval, r, term, role, full, applied);
    hide IsAt, StandsFor, HandleAppendEntries, RecordApplications, IsHarmless, LogState.Matches;
    OneMoves(s, After(s, step), p, node');
    hide Trio, Same;
  }

  function Max(a: nat, b: nat): nat {
    if a >= b then a else b
  }

  function AckOf(p: Id, n: Id, term: nat, prev: nat, count: nat): Message {
    AppendReply(p, n, term, prev, count, term, true)
  }

  lemma ReceivedNode(node: NodeState, interval: nat, r: AppendRequest, term: nat, role: Role, full: seq<Entry>,
      applied: nat)
    requires IsAt(node, interval, term, role, full, applied) && interval >= 1 && term <= r.term
    requires r.prevIndex == |full| && (full != [] ==> r.prevTerm == TermOf(full, |full|))
    requires r.leaderCommit <= |full + r.entries|
    ensures node.log.lastIncludedIndex <= node.lastApplied && IsHarmless(node.log, r)
    ensures var (node', ok) := HandleAppendEntries(node, r, interval);
            && ok && node'.currentTerm == r.term && node'.matchIndex == node.matchIndex
            && IsAt(node', interval, r.term, if r.term > term then Follower else role, full + r.entries,
                    Max(applied, r.leaderCommit))
            && (applied == 0 && r.leaderCommit == interval ==> node'.log.lastIncludedIndex == interval)
            && (r.leaderCommit <= applied ==> node'.log.lastIncludedIndex == node.log.lastIncludedIndex)
  {
    hide StandsFor, MergeEntries, IsHarmless, LogState.Matches, InsideTerms, HandleAppendEntries, ApplyCommitted;
    NextIsMatched(node, r, full);
    var node1 := if r.term > term then UpdateTerm(node, r.term) else node;
    var node2 := node1.(log := MergeEntries(node.log, |full|, r.entries));
    AppendedStands(node, r.entries, full);
    StandsIsLong(node.(log := node2.log), full + r.entries);
    HandledAs(node, r, interval);
    StandsInTerm(node.(log := node2.log), node2, full + r.entries);
    StandsIsLong(node2, full + r.entries);
    if r.leaderCommit > applied {
      AppliesUpTo(node2, interval, full + r.entries, r.leaderCommit);
    }
  }

  lemma HandledAs(node: NodeState, r: AppendRequest, interval: nat)
    requires node.log.lastIncludedIndex <= node.lastApplied && IsAccepted(node, r)
    requires r.leaderCommit <= MergeEntries(node.log, r.prevIndex, r.entries).Length()
        || r.leaderCommit <= node.commitIndex
    ensures var node1 := if r.term > node.currentTerm then UpdateTerm(node, r.term) else node;
            var node2 := node1.(log := MergeEntries(node.log, r.prevIndex, r.entries));
            && node2.log.lastIncludedIndex == node.log.lastIncludedIndex
            && HandleAppendEntries(node, r, interval)
               == (if r.leaderCommit > node.commitIndex
                   then ApplyCommitted(node2.(commitIndex := r.leaderCommit), interval) else node2, true)
  {
    MergeKeepsSnapshot(node.log, r.prevIndex, r.entries);
    hide MergeEntries, LogState.Matches, ApplyCommitted;
  }

  lemma StandsIsLong(node: NodeState, full: seq<Entry>)
    requires StandsFor(node, full)
    ensures node.log.Length() == |full| && node.log.lastIncludedIndex <= node.lastApplied
  {
  }

  lemma NextIsMatched(node: NodeState, r: AppendRequest, full: seq<Entry>)
    requires StandsFor(node, full) && r.prevIndex == |full| && (full != [] ==> r.prevTerm == TermOf(full, |full|))
    ensures node.log.Matches(r.prevIndex, r.prevTerm) && IsHarmless(node.log, r)
    ensures node.log.lastIncludedIndex <= node.lastApplied
  {
    RepresentedTerm(node.log, full, |full|);
    assert InsideTerms(node.log, r.prevIndex, r.entries);
  }

  lemma AppendedStands(node: NodeState, entries: seq<Entry>, full: seq<Entry>)
    requires StandsFor(node, full)
    ensures StandsFor(node.(log := MergeEntries(node.log, |full|, entries)), full + entries)
  {
    var w := full + entries;
    MergeAgrees(node.log, full, |full|, entries);
    AppendAll(full, entries);
    MergeKeepsSnapshot(node.log, |full|, entries);
    assert w[..|full|] == full[..|full|];
    SamePrefixes(full, w, |full|, node.lastApplied);
    SamePrefixes(full, w, |full|, node.log.lastIncludedIndex);
    hide MergeEntries, ApplyLog, SnapshotOf, TermOf;
  }

  /** Committing and applying: how far the node then is, and that a full interval is compacted. */
  lemma AppliesUpTo(node: NodeState, interval: nat, full: seq<Entry>, k: nat)
    requires StandsFor(node, full) && node.commitIndex == node.lastApplied < k <= |full| && interval >= 1
    requires node.lastApplied - node.log.lastIncludedIndex < interval
    ensures var node' := ApplyCommitted(node.(commitIndex := k), interval);
            && IsAt(node', interval, node.currentTerm, node.role, full, k)
            && node' == node.(commitIndex := k, lastApplied := k, store := node'.store, log := node'.log,
                snapshot := node'.snapshot)
            && (node.lastApplied == 0 && k == interval ==> node'.log.lastIncludedIndex == interval)
  {
    StandsCommitted(node, full, k);
    ApplyAgrees(node.(commitIndex := k), full, interval, |full| + 1);
    AppliedShape(node.(commitIndex := k), interval);
  }

  lemma {:induction false} AppliedShape(node: NodeState, interval: nat)
    requires node.log.lastIncludedIndex <= node.lastApplied && node.commitIndex <= node.log.Length() && interval >= 1
    ensures var node' := ApplyCommitted(node, interval);
            && node' == node.(lastApplied := node'.lastApplied, store := node'.store, log := node'.log,
                              snapshot := node'.snapshot)
            && (node'.log.lastIncludedIndex == node.log.lastIncludedIndex
                || node'.log.lastIncludedIndex >= node.log.lastIncludedIndex + interval)
    decreases node.commitIndex - node.lastApplied
  {
    if node.lastApplied < node.commitIndex {
      AppliedShape(CheckSnapshot(ApplyNext(node), interval), interval);
    }
  }

  lemma CallFailsEffect(s: Cluster, n: Id, term: nat, full: seq<Entry>, applied: nat, p: Id, matches: map<Id, nat>)
    requires Trio(s) && Leading(s, n, term, full, applied, p, 2, matches)
    ensures var step := CallFails(n, p);
            && Allowed(WithCompaction, s, step) && Enabled(s, step)
            && var s' := After(s, step);
               Trio(s') && Same(s, s', {n}) && Leading(s', n, term, full, applied, p, 1, matches)
  {
    AtFacts(s, n, term, Leader, full, applied);
    var node := s.nodes[n];
    var node' := node.(nextIndex := node.nextIndex[p := 1]);
    SameLogIsAt(node, node', s.snapshotInterval, term, Leader, full, applied);
    hide IsAt, StandsFor;
    OneMoves(s, After(s, CallFails(n, p)), n, node');
    hide Trio, Same;
  }

  lemma OneOfTwoIsMajority(peers: set<Id>, matches: map<Id, nat>, p: Id, k: nat)
    requires Blank(peers, matches) && p in peers && k > 0
    ensures IsMajorityMatch(matches[p := k], k, 1, k)
  {
    var m := matches[p := k];
    assert (set x | x in m && m[x] >= k) == {p};
    assert (set x | x in m && m[x] >= k + 1) == {};
  }

  /** The acknowledgement of its whole log by one of two peers lets a leader commit and apply it. */
  lemma AckEffect(s: Cluster, n: Id, term: nat, full: seq<Entry>, applied: nat, p: Id, next: nat, matches: map<Id, nat>,
                  prev: nat, count: nat)
    requires Trio(s) && Leading(s, n, term, full, applied, p, next, matches) && Blank(s.servers - {n}, matches)
    requires AckOf(p, n, term, prev, count) in s.sent && count > 0 && prev + count == |full|
    requires applied < |full| && full[|full| - 1].term == term
    ensures var step := DeliverAppendReply(AckOf(p, n, term, prev, count), |full|);
            && Allowed(WithCompaction, s, step) && Enabled(s, step)
            && var s' := After(s, step);
               && Trio(s') && Same(s, s', {n})
               && Leading(s', n, term, full, |full|, p, |full| + 1, matches[p := |full|])
  {
    hide IsAt, StandsFor, Blank, IsMajorityMatch, CommitTo, RecordMatch, After, Enabled, Allowed, Same, IsHarmless;
    AtFacts(s, n, term, Leader, full, applied);
    MajorityOfThree(s, n);
    var m, k, node, c := AckOf(p, n, term, prev, count), |full|, s.nodes[n], s.ConfigOf(n);
    AckedNode(node, c, term, full, applied, p, matches);
    BlankKeys(s.servers - {n}, matches);
    AckMoves(s, m, k, CommitTo(RecordMatch(node, p, k), c, k));
    SameKeeps(s, After(s, DeliverAppendReply(m, k)), {n});
    StillLeads(s, After(s, DeliverAppendReply(m, k)), n, term, full, p, matches);
  }

  lemma AckedNode(node: NodeState, c: Config, term: nat, full: seq<Entry>, applied: nat, p: Id, matches: map<Id, nat>)
    requires IsAt(node, c.snapshotInterval, term, Leader, full, applied) && c.snapshotInterval >= 1
    requires node.matchIndex == matches && Blank(c.peers, matches) && p in c.peers && c.Majority() == 1
    requires applied < |full| == node.log.Length() && full[|full| - 1].term == term
    ensures node.log.lastIncludedIndex <= node.lastApplied
    ensures var k, recorded := |full|, RecordMatch(node, p, |full|);
            && IsMajorityMatch(recorded.matchIndex, node.log.Length(), c.Majority(), k)
            && recorded.log.lastIncludedIndex <= recorded.lastApplied
            && var node' := CommitTo(recorded, c, k);
               && IsAt(node', c.snapshotInterval, term, Leader, full, k)
               && p in node'.nextIndex && node'.nextIndex[p] == k + 1 && node'.matchIndex == matches[p := k]
  {
    var recorded := RecordMatch(node, p, |full|);
    SameLogIsAt(node, recorded, c.snapshotInterval, term, Leader, full, applied);
    hide IsAt, StandsFor;
    OneOfTwoIsMajority(c.peers, matches, p, |full|);
    hide IsMajorityMatch, Blank, CommitTo;
    CommitsAll(recorded, c, term, full, applied);
  }

  lemma BlankKeys(peers: set<Id>, matches: map<Id, nat>)
    requires Blank(peers, matches)
    ensures matches.Keys == peers
  {
  }

  lemma StillLeads(s: Cluster, s': Cluster, n: Id, term: nat, full: seq<Entry>, p: Id, matches: map<Id, nat>)
    requires n in s.servers && p in s.servers && p != n && n in s'.nodes && s'.servers == s.servers
    requires s'.snapshotInterval == s.snapshotInterval && matches.Keys <= s.servers - {n}
    requires IsAt(s'.nodes[n], s.snapshotInterval, term, Leader, full, |full|)
    requires p in s'.nodes[n].nextIndex && s'.nodes[n].nextIndex[p] == |full| + 1
    requires s'.nodes[n].matchIndex == matches[p := |full|]
    ensures Leading(s', n, term, full, |full|, p, |full| + 1, matches[p := |full|])
  {
    hide IsAt;
  }

  lemma CommitsAll(node: NodeState, c: Config, term: nat, full: seq<Entry>, applied: nat)
    requires IsAt(node, c.snapshotInterval, term, Leader, full, applied) && c.snapshotInterval >= 1
    requires applied < |full| && full[|full| - 1].term == term
    ensures node.log.lastIncludedIndex <= node.lastApplied
    ensures var node' := CommitTo(node, c, |full|);
            && IsAt(node', c.snapshotInterval, term, Leader, full, |full|)
            && node'.nextIndex == node.nextIndex && node'.matchIndex == node.matchIndex
  {
    RepresentedTerm(node.log, full, |full|);
    AppliesUpTo(node, c.snapshotInterval, full, |full|);
    hide StandsFor, ApplyCommitted;
  }

  lemma AckMoves(s: Cluster, m: Message, k: nat, node': NodeState)
    requires Trio(s) && m in s.sent && m.AppendReply? && m.to in s.servers && m.success && m.count > 0
    requires s.nodes[m.to].role == Leader && m.replyTerm <= s.nodes[m.to].currentTerm == m.requestTerm
    requires s.nodes[m.to].log.lastIncludedIndex <= s.nodes[m.to].lastApplied
    requires var recorded := RecordMatch(s.nodes[m.to], m.from, m.prevIndex + m.count);
             && IsMajorityMatch(recorded.matchIndex, s.nodes[m.to].log.Length(), s.ConfigOf(m.to).Majority(), k)
             && node' == CommitTo(recorded, s.ConfigOf(m.to), k)
    ensures var step := DeliverAppendReply(m, k);
            && Allowed(WithCompaction, s, step) && Enabled(s, step)
            && var s' := After(s, step); Trio(s') && Same(s, s', {m.to}) && s'.nodes[m.to] == node'
  {
    hide IsMajorityMatch, CommitTo, RecordApplications, CommitQuorum;
    OneMoves(s, After(s, DeliverAppendReply(m, k)), m.to, node');
    hide Trio, Same;
  }

  /** A node that has compacted its whole log gets it once more: what has not the snapshot's term goes to the
      end of its log. */
  lemma HarmfulEffect(s: Cluster, n: Id, p: Id, term: nat, role: Role, full: seq<Entry>)
    requires Trio(s) && At(s, p, term, role, full, |full|) && s.nodes[p].log.lastIncludedIndex == |full| > 1
    requires AppendCall(p, Shipped(n, term, full, 1, 0)) in s.sent && full[0].term != TermOf(full, |full|)
    ensures var step := DeliverAppendCall(AppendCall(p, Shipped(n, term, full, 1, 0)));
            && Enabled(s, step) && RepliesInTerm(s, step) && !AppendIsHarmless(s, step)
            && var s' := After(s, step);
               && Trio(s') && Same(s, s', {p})
               && At(s', p, term, role, full + Unlike(full, TermOf(full, |full|)), |full|)
  {
    AtFacts(s, p, term, role, full, |full|);
    var node, r := s.nodes[p], Shipped(n, term, full, 1, 0);
    var step := DeliverAppendCall(AppendCall(p, r));
    assert r.entries == full;
    HarmfulNode(node, s.snapshotInterval, r, term, role, full);
    hide IsAt, StandsFor, HandleAppendEntries, RecordApplications, IsHarmless, Unlike;
    OneMoves(s, After(s, step), p, HandleAppendEntries(node, r, s.snapshotInterval).0);
    hide Trio, Same;
  }

  lemma HarmfulNode(node: NodeState, interval: nat, r: AppendRequest, term: nat, role: Role, full: seq<Entry>)
    requires IsAt(node, interval, term, role, full, |full|) && node.log.lastIncludedIndex == |full| > 1
    requires r.term == term && r.prevIndex == 0 && r.entries == full && r.leaderCommit == 0
    requires full[0].term != TermOf(full, |full|)
    ensures IsAccepted(node, r) && !IsHarmless(node.log, r)
    ensures var node' := HandleAppendEntries(node, r, interval).0;
            && node'.matchIndex == node.matchIndex
            && IsAt(node', interval, term, role, full + Unlike(full, TermOf(full, |full|)), |full|)
  {
    var extra, w := Unlike(full, TermOf(full, |full|)), full + Unlike(full, TermOf(full, |full|));
    assert node.log == LogState([], |full|, TermOf(full, |full|));
    assert !InsideTerms(node.log, 0, full) by {
      assert 0 + 0 + 1 < node.log.lastIncludedIndex;
    }
    InsideMergeAppends(node.log, 0, full);
    assert [] + extra == extra;
    assert MergeEntries(node.log, 0, full) == LogState(extra, |full|, TermOf(full, |full|));
    assert w[|full|..] == extra && w[..|full|] == full[..|full|];
    SamePrefixes(full, w, |full|, |full|);
    hide MergeEntries, Unlike, ApplyLog;
  }

  /** The leader ships to `p` what comes after the log of `p`. */
  lemma Ship(s: Cluster, n: Id, term: nat, full: seq<Entry>, applied: nat, p: Id, next: nat, matches: map<Id, nat>,
             termP: nat, roleP: Role, log: seq<Entry>, appliedP: nat) returns (steps: seq<Step>, s': Cluster)
    requires Trio(s) && Leading(s, n, term, full, applied, p, next, matches) && applied < next <= |full| + 1
    requires At(s, p, termP, roleP, log, appliedP) && termP <= term && p != n
    requires |log| == next - 1 && TermOf(log, |log|) == TermOf(full, |log|) && applied <= |full|
    ensures Leads(WithCompaction, s, steps, s') && Trio(s') && Same(s, s', {p})
    ensures Leading(s', n, term, full, applied, p, next, matches)
    ensures At(s', p, term, if term > termP then Follower else roleP, log + full[|log|..], Max(appliedP, applied))
    ensures AckOf(p, n, term, |log|, |full| - |log|) in s'.sent && p in s'.nodes
    ensures appliedP == 0 && applied == s.snapshotInterval ==>
              s'.nodes[p].log.lastIncludedIndex == s.snapshotInterval
  {
    hide Trio, Leading, At, Leads, Allowed, Enabled, After;
    var r := Shipped(n, term, full, next, applied);
    SendEffect(s, n, term, full, applied, p, next, matches);
    StepLeads(WithCompaction, s, SendAppend(n, p));
    var s1 := After(s, SendAppend(n, p));
    AtStays(s, s1, {}, p, termP, roleP, log, appliedP);
    LeadingStays(s, s1, {}, n, term, full, applied, p, next, matches);
    var step := DeliverAppendCall(AppendCall(p, r));
    ReceiveEffect(s1, r, p, termP, roleP, log, appliedP);
    OneMore(WithCompaction, s, [SendAppend(n, p)], s1, step);
    steps, s' := [SendAppend(n, p)] + [step], After(s1, step);
    AtIsNode(s', p, term, if term > termP then Follower else roleP, log + full[|log|..], Max(appliedP, applied));
    LeadingStays(s1, s', {p}, n, term, full, applied, p, next, matches);
  }

  lemma LeadingIsAt(s: Cluster, n: Id, term: nat, full: seq<Entry>, applied: nat, p: Id, next: nat,
      matches: map<Id, nat>)
    requires Leading(s, n, term, full, applied, p, next, matches)
    ensures At(s, n, term, Leader, full, applied) && n in s.servers && p in s.servers && p != n
  {
  }

  // ----- The run, for a snapshot interval of `size` -----

  const FIRST: Entry := Entry(1, 1, Get("k"))

  /** What `c` writes in term 1, what `a` writes in term 2, and what becomes of it at `b`. */
  function LogC(size: nat): seq<Entry> {
    [FIRST] + Copies(1, 2, Set("k", "x"), size)
  }

  function LogA(size: nat): seq<Entry>
    requires size >= 1
  {
    [FIRST] + Copies(2, 2, Set("k", "y"), size - 1)
  }

  function LogB(size: nat): seq<Entry>
    requires size >= 1
  {
    LogA(size) + [FIRST]
  }

  function Last(size: nat): Entry {
    Entry(3, size + 2, Get("k"))
  }

  lemma LogFacts(size: nat)
    requires size >= 2
    ensures |LogA(size)| == size && |LogB(size)| == size + 1 && |LogC(size)| == size + 1
    ensures LogA(size)[0] == FIRST && LogA(size)[size - 1].term == 2
    ensures TermOf(LogA(size), 1) == 1 && TermOf(LogA(size), size) == 2
    ensures TermOf(LogB(size), size + 1) == 1 && TermOf(LogC(size), size + 1) == 1
    ensures TermOf([FIRST], 1) == 1 && TermOf([], 0) == 0
    ensures [FIRST] + LogA(size)[1..] == LogA(size) && LogA(size)[size..] == []
    ensures UpToDate(0, 0, 0, 0) && UpToDate(1, 1, 1, 1) && UpToDate(size + 1, 1, size + 1, 1)
  {
    var x, y := Copies(1, 2, Set("k", "x"), size), Copies(2, 2, Set("k", "y"), size - 1);
    assert LogC(size)[size] == x[size - 1] && x[size - 1] in x;
    assert LogA(size)[size - 1] == y[size - 2] && y[size - 2] in y;
    assert LogA(size)[1..] == y;
  }

  lemma LogAUnlike(size: nat)
    requires size >= 2
    ensures Unlike(LogA(size), 2) == [FIRST]
  {
    var y := Copies(2, 2, Set("k", "y"), size - 1);
    UnlikeIsEmptyIff(y, 2);
    assert forall j | 0 <= j < |y| :: y[j] in y;
    assert LogA(size)[0] == FIRST && LogA(size)[1..] == y;
    assert [FIRST] + [] == [FIRST];
  }

  ghost predicate AfterFirst(s: Cluster, a: Id, b: Id, c: Id) {
    && Trio(s) && s.servers == {a, b, c}
    && At(s, a, 1, Follower, [FIRST], 0) && At(s, b, 1, Follower, [FIRST], 0)
    && At(s, c, 1, Leader, LogC(s.snapshotInterval), 0)
  }

  lemma FreshTrio(s: Cluster, a: Id, b: Id, c: Id)
    requires Init(s) && s.servers == {a, b, c} && a != b && a != c && b != c && s.snapshotInterval >= 2
    ensures Trio(s)
    ensures At(s, a, 0, Follower, [], 0) && At(s, b, 0, Follower, [], 0) && At(s, c, 0, Follower, [], 0)
  {
    assert s.servers == {a} + {b} + {c};
  }

  /** `c` leads term 1 and ships its first entry, and keeps writing. */
  lemma FirstTerm(s: Cluster, a: Id, b: Id, c: Id) returns (steps: seq<Step>, s': Cluster)
    requires Init(s) && s.servers == {a, b, c} && a != b && a != c && b != c && s.snapshotInterval >= 2
    ensures Leads(WithCompaction, s, steps, s') && AfterFirst(s', a, b, c)
  {
    hide Trio, At, Leading, Leads, Same, Blank, Allowed, Enabled, After, Init, UpToDate;
    FreshTrio(s, a, b, c);
    LogFacts(s.snapshotInterval);
    var won, s1, matches := Elect(s, c, a, 0, Follower, [], 0, 0, Follower, [], 0);
    SameKeeps(s, s1, {c, a});
    AtStays(s, s1, {c, a}, b, 0, Follower, [], 0);
    assert Leading(s1, c, 1, [], 0, a, 1, matches) && Leading(s1, c, 1, [], 0, b, 1, matches);
    var step := Submit(c, Get("k"));
    assert [] + [FIRST] == [FIRST];
    SubmitEffect(s1, c, 1, [], 0, a, 1, matches, Get("k"));
    SubmitEffect(s1, c, 1, [], 0, b, 1, matches, Get("k"));
    OneMore(WithCompaction, s, won, s1, step);
    var s2 := After(s1, step);
    SameKeeps(s1, s2, {c});
    AtStays(s1, s2, {c}, a, 1, Follower, [], 0);
    AtStays(s1, s2, {c}, b, 0, Follower, [], 0);
    var rest, s3 := FirstShipped(s2, a, b, c, matches);
    LeadsOn(WithCompaction, s, won + [step], s2, rest, s3);
    steps, s' := won + [step] + rest, s3;
  }

  lemma FirstShipped(s: Cluster, a: Id, b: Id, c: Id, matches: map<Id, nat>) returns (steps: seq<Step>, s': Cluster)
    requires Trio(s) && s.servers == {a, b, c} && a != b && a != c && b != c
    requires Leading(s, c, 1, [FIRST], 0, a, 1, matches) && Leading(s, c, 1, [FIRST], 0, b, 1, matches)
    requires At(s, a, 1, Follower, [], 0) && At(s, b, 0, Follower, [], 0)
    ensures Leads(WithCompaction, s, steps, s') && AfterFirst(s', a, b, c)
  {
    hide Trio, At, Leading, Leads, Same;
    assert [] + [FIRST][0..] == [FIRST];
    var toA, s1 := Ship(s, c, 1, [FIRST], 0, a, 1, matches, 1, Follower, [], 0);
    SameKeeps(s, s1, {a});
    AtStays(s, s1, {a}, b, 0, Follower, [], 0);
    LeadingStays(s, s1, {a}, c, 1, [FIRST], 0, b, 1, matches);
    var toB, s2 := Ship(s1, c, 1, [FIRST], 0, b, 1, matches, 0, Follower, [], 0);
    SameKeeps(s1, s2, {b});
    AtStays(s1, s2, {b}, a, 1, Follower, [FIRST], 0);
    var written, s3 := SubmitCopies(s2, c, 1, [FIRST], 0, b, 1, matches, Set("k", "x"), s.snapshotInterval);
    SameKeeps(s2, s3, {c});
    AtStays(s2, s3, {c}, a, 1, Follower, [FIRST], 0);
    AtStays(s2, s3, {c}, b, 1, Follower, [FIRST], 0);
    LeadingIsAt(s3, c, 1, LogC(s.snapshotInterval), 0, b, 1, matches);
    LeadsOn(WithCompaction, s, toA, s1, toB, s2);
    LeadsOn(WithCompaction, s, toA + toB, s2, written, s3);
    steps, s' := toA + toB + written, s3;
  }

  ghost predicate AfterElection(s: Cluster, a: Id, b: Id, c: Id, matches: map<Id, nat>) {
    && Trio(s) && s.servers == {a, b, c}
    && Leading(s, a, 2, LogA(s.snapshotInterval), 0, b, 2, matches) && Blank(s.servers - {a}, matches)
    && At(s, b, 2, Follower, [FIRST], 0) && At(s, c, 2, Follower, LogC(s.snapshotInterval), 0)
  }

  /** `a` is elected by `b` and writes; `c` steps down. */
  lemma SecondElection(s: Cluster, a: Id, b: Id, c: Id) returns (steps: seq<Step>, s': Cluster, matches: map<Id, nat>)
    requires AfterFirst(s, a, b, c) && a != b && a != c && b != c
    ensures Leads(WithCompaction, s, steps, s') && AfterElection(s', a, b, c, matches)
    ensures s'.snapshotInterval == s.snapshotInterval
  {
    hide Trio, At, Leading, Leads, Same, Blank, Allowed, Enabled, After, UpToDate;
    var size := s.snapshotInterval;
    TrioInterval(s);
    LogFacts(size);
    var won, s1, matches1 := Elect(s, a, b, 1, Follower, [FIRST], 0, 1, Follower, [FIRST], 0);
    SameKeeps(s, s1, {a, b});
    AtStays(s, s1, {a, b}, c, 1, Leader, LogC(size), 0);
    var step := DeliverVoteCall(VoteCall(c, Ask(a, 2, [FIRST])));
    VoteEffect(s1, a, c, 2, [FIRST], 1, Leader, LogC(size), 0);
    OneMore(WithCompaction, s, won, s1, step);
    var s2 := After(s1, step);
    SameKeeps(s1, s2, {c});
    AtStays(s1, s2, {c}, b, 2, Follower, [FIRST], 0);
    LeadingStays(s1, s2, {c}, a, 2, [FIRST], 0, b, 2, matches1);
    var written, s3 := SubmitCopies(s2, a, 2, [FIRST], 0, b, 2, matches1, Set("k", "y"), size - 1);
    SameKeeps(s2, s3, {a});
    AtStays(s2, s3, {a}, b, 2, Follower, [FIRST], 0);
    AtStays(s2, s3, {a}, c, 2, Follower, LogC(size), 0);
    LeadsOn(WithCompaction, s, won + [step], s2, written, s3);
    steps, s', matches := won + [step] + written, s3, matches1;
  }

  lemma TrioInterval(s: Cluster)
    requires Trio(s)
    ensures s.snapshotInterval >= 2
  {
  }

  /** The late request: after a failed call `a` ships its whole log once more. */
  function Late(a: Id, size: nat): AppendRequest
    requires size >= 1
  {
    Shipped(a, 2, LogA(size), 1, 0)
  }

  /** `b` has compacted all of the log of `a` when the late request is still under way to it. */
  ghost predicate BeforeLate(s: Cluster, a: Id, b: Id, c: Id) {
    && Trio(s) && s.servers == {a, b, c}
    && At(s, b, 2, Follower, LogA(s.snapshotInterval), s.snapshotInterval)
    && s.nodes[b].log.lastIncludedIndex == s.snapshotInterval
    && At(s, c, 2, Follower, LogC(s.snapshotInterval), 0)
    && AppendCall(b, Late(a, s.snapshotInterval)) in s.sent
  }

  /** `b` gets and acknowledges the log of `a`; then a call fails, and `a` ships it again. */
  lemma ShippedTwice(s: Cluster, a: Id, b: Id, c: Id, matches: map<Id, nat>) returns (steps: seq<Step>, s': Cluster)
    requires AfterElection(s, a, b, c, matches) && a != b && a != c && b != c
    ensures Leads(WithCompaction, s, steps, s') && Trio(s') && s'.servers == s.servers
    ensures s'.snapshotInterval == s.snapshotInterval >= 2
    ensures Leading(s', a, 2, LogA(s.snapshotInterval), 0, b, 1, matches)
    ensures At(s', b, 2, Follower, LogA(s.snapshotInterval), 0) && At(s', c, 2, Follower, LogC(s.snapshotInterval), 0)
    ensures AppendCall(b, Late(a, s.snapshotInterval)) in s'.sent
    ensures AckOf(b, a, 2, 1, s.snapshotInterval - 1) in s'.sent
  {
    hide Trio, At, Leading, Leads, Same, Blank, Allowed, Enabled, After, UpToDate, LogA, LogC;
    var size := s.snapshotInterval;
    TrioInterval(s);
    LogFacts(size);
    var log := LogA(size);
    var toB, s1 := Ship(s, a, 2, log, 0, b, 2, matches, 2, Follower, [FIRST], 0);
    SameKeeps(s, s1, {b});
    AtStays(s, s1, {b}, c, 2, Follower, LogC(size), 0);
    CallFailsEffect(s1, a, 2, log, 0, b, matches);
    OneMore(WithCompaction, s, toB, s1, CallFails(a, b));
    var s2 := After(s1, CallFails(a, b));
    SameKeeps(s1, s2, {a});
    AtStays(s1, s2, {a}, b, 2, Follower, log, 0);
    AtStays(s1, s2, {a}, c, 2, Follower, LogC(size), 0);
    SendEffect(s2, a, 2, log, 0, b, 1, matches);
    OneMore(WithCompaction, s, toB + [CallFails(a, b)], s2, SendAppend(a, b));
    steps, s' := toB + [CallFails(a, b)] + [SendAppend(a, b)], After(s2, SendAppend(a, b));
    SameKeeps(s2, s', {});
    AtStays(s2, s', {}, b, 2, Follower, log, 0);
    AtStays(s2, s', {}, c, 2, Follower, LogC(size), 0);
    LeadingStays(s2, s', {}, a, 2, log, 0, b, 1, matches);
  }

  /** The acknowledgement arrives, `a` commits, and `b` learns of it and compacts. */
  lemma SecondTerm(s: Cluster, a: Id, b: Id, c: Id) returns (steps: seq<Step>, s': Cluster)
    requires AfterFirst(s, a, b, c) && a != b && a != c && b != c
    ensures Leads(WithCompaction, s, steps, s') && BeforeLate(s', a, b, c)
  {
    hide Trio, At, Leading, Leads, Same, Blank, Allowed, Enabled, After, UpToDate, LogA, LogC, Late;
    var size := s.snapshotInterval;
    var won, s1, matches := SecondElection(s, a, b, c);
    var shipped, s2 := ShippedTwice(s1, a, b, c, matches);
    LogFacts(size);
    var log, ack := LogA(size), DeliverAppendReply(AckOf(b, a, 2, 1, size - 1), size);
    AckEffect(s2, a, 2, log, 0, b, 1, matches, 1, size - 1);
    OneMore(WithCompaction, s1, shipped, s2, ack);
    var s3 := After(s2, ack);
    SameKeeps(s2, s3, {a});
    AtStays(s2, s3, {a}, b, 2, Follower, log, 0);
    AtStays(s2, s3, {a}, c, 2, Follower, LogC(size), 0);
    assert log + log[size..] == log;
    var toB, s4 := Ship(s3, a, 2, log, size, b, size + 1, matches[b := size], 2, Follower, log, 0);
    SameKeeps(s3, s4, {b});
    AtStays(s3, s4, {b}, c, 2, Follower, LogC(size), 0);
    LeadsOn(WithCompaction, s1, shipped + [ack], s3, toB, s4);
    LeadsOn(WithCompaction, s, won, s1, shipped + [ack] + toB, s4);
    steps, s' := won + (shipped + [ack] + toB), s4;
  }

  ghost predicate AfterLate(s: Cluster, a: Id, b: Id, c: Id) {
    && Trio(s) && s.servers == {a, b, c}
    && At(s, b, 2, Follower, LogB(s.snapshotInterval), s.snapshotInterval)
    && At(s, c, 2, Follower, LogC(s.snapshotInterval), 0)
  }

  /** The log of `b` now ends, like the one of `c`, in an entry of term 1. */
  lemma LateArrives(s: Cluster, a: Id, b: Id, c: Id) returns (step: Step, s': Cluster)
    requires BeforeLate(s, a, b, c) && a != b && a != c && b != c
    ensures step.DeliverAppendCall? && step.m.to == b
    ensures Enabled(s, step) && RepliesInTerm(s, step) && !AppendIsHarmless(s, step) && s' == After(s, step)
    ensures AfterLate(s', a, b, c)
  {
    hide Trio, At, Same, Enabled, After, RepliesInTerm, AppendIsHarmless, LogA, LogC, Unlike;
    var size := s.snapshotInterval;
    TrioInterval(s);
    LogFacts(size);
    LogAUnlike(size);
    HarmfulEffect(s, a, b, 2, Follower, LogA(size));
    step := DeliverAppendCall(AppendCall(b, Late(a, size)));
    s' := After(s, step);
    SameKeeps(s, s', {b});
    AtStays(s, s', {b}, c, 2, Follower, LogC(size), 0);
  }

  /** So `b` votes for `c`, which ships its next entry; both commit and apply different logs. */
  lemma ThirdTerm(s: Cluster, a: Id, b: Id, c: Id) returns (steps: seq<Step>, s': Cluster)
    requires AfterLate(s, a, b, c) && a != b && a != c && b != c
    ensures Leads(WithCompaction, s, steps, s') && s.snapshotInterval == s'.snapshotInterval >= 2
    ensures var size := s.snapshotInterval;
            && At(s', b, 3, Follower, LogB(size) + [Last(size)], size + 2)
            && At(s', c, 3, Leader, LogC(size) + [Last(size)], size + 2)
  {
    hide Trio, At, Leading, Leads, Same, Blank, Allowed, Enabled, After, UpToDate, LogB, LogC, LogA;
    var size := s.snapshotInterval;
    TrioInterval(s);
    LogFacts(size);
    var won, s1, matches := Elect(s, c, b, 2, Follower, LogC(size), 0, 2, Follower, LogB(size), size);
    SameKeeps(s, s1, {c, b});
    assert Leading(s1, c, 3, LogC(size), 0, b, size + 2, matches);
    var log, step := LogC(size) + [Last(size)], Submit(c, Get("k"));
    SubmitEffect(s1, c, 3, LogC(size), 0, b, size + 2, matches, Get("k"));
    OneMore(WithCompaction, s, won, s1, step);
    var s2 := After(s1, step);
    SameKeeps(s1, s2, {c});
    AtStays(s1, s2, {c}, b, 3, Follower, LogB(size), size);
    var rest, s3 := ThirdShipped(s2, b, c, matches);
    LeadsOn(WithCompaction, s, won + [step], s2, rest, s3);
    steps, s' := won + [step] + rest, s3;
  }

  lemma ThirdShipped(s: Cluster, b: Id, c: Id, matches: map<Id, nat>) returns (steps: seq<Step>, s': Cluster)
    requires Trio(s) && b != c && Blank(s.servers - {c}, matches)
    requires var size := s.snapshotInterval;
             && size >= 2 && Leading(s, c, 3, LogC(size) + [Last(size)], 0, b, size + 2, matches)
             && At(s, b, 3, Follower, LogB(size), size)
    ensures Leads(WithCompaction, s, steps, s') && s'.snapshotInterval == s.snapshotInterval
    ensures var size := s.snapshotInterval;
            && At(s', b, 3, Follower, LogB(size) + [Last(size)], size + 2)
            && At(s', c, 3, Leader, LogC(size) + [Last(size)], size + 2)
  {
    hide Trio, At, Leading, Leads, Same, Blank, Allowed, Enabled, After, UpToDate, LogB, LogC, LogA;
    var size := s.snapshotInterval;
    LogFacts(size);
    var log, logB := LogC(size) + [Last(size)], LogB(size) + [Last(size)];
    assert log[size + 1..] == [Last(size)] && TermOf(log, size + 1) == TermOf(LogC(size), size + 1);
    var toB, s1 := Ship(s, c, 3, log, 0, b, size + 2, matches, 3, Follower, LogB(size), size);
    SameKeeps(s, s1, {b});
    var ack := DeliverAppendReply(AckOf(b, c, 3, size + 1, 1), size + 2);
    AckEffect(s1, c, 3, log, 0, b, size + 2, matches, size + 1, 1);
    OneMore(WithCompaction, s, toB, s1, ack);
    var s2 := After(s1, ack);
    SameKeeps(s1, s2, {c});
    AtStays(s1, s2, {c}, b, 3, Follower, logB, size);
    assert logB + log[size + 2..] == logB && TermOf(log, size + 2) == TermOf(logB, size + 2);
    var again, s3 := Ship(s2, c, 3, log, size + 2, b, size + 3, matches[b := size + 2], 3, Follower, logB, size);
    SameKeeps(s2, s3, {b});
    LeadingIsAt(s3, c, 3, log, size + 2, b, size + 3, matches[b := size + 2]);
    LeadsOn(WithCompaction, s, toB + [ack], s2, again, s3);
    steps, s' := toB + [ack] + again, s3;
  }

  // ----- The two stores -----

  lemma {:induction false} CopiesWrite(full: seq<Entry>, term: nat, start: nat, k: string, v: string, count: nat)
    requires count > 0
    ensures ApplyLog(full + Copies(term, start, Set(k, v), count)) == ApplyLog(full)[k := v]
  {
    var before := Copies(term, start, Set(k, v), count - 1);
    var e := Entry(term, start + count - 1, Set(k, v));
    assert full + (before + [e]) == full + before + [e];
    OneMoreApplied(full + before, e);
    if count == 1 {
      assert full + [] == full;
    } else {
      CopiesWrite(full, term, start, k, v, count - 1);
    }
  }

  lemma OneMoreApplied(full: seq<Entry>, e: Entry)
    ensures ApplyLog(full + [e]) == ApplyCommand(ApplyLog(full), e.command).0
  {
    assert (full + [e])[..|full|] == full;
  }

  lemma StoresDiffer(size: nat)
    requires size >= 2
    ensures ApplyLog(LogB(size) + [Last(size)]) != ApplyLog(LogC(size) + [Last(size)])
  {
    OneMoreApplied(LogB(size), Last(size));
    OneMoreApplied(LogA(size), FIRST);
    OneMoreApplied(LogC(size), Last(size));
    CopiesWrite([FIRST], 1, 2, "k", "x", size);
    CopiesWrite([FIRST], 2, 2, "k", "y", size - 1);
    assert ApplyLog(LogC(size))["k"] == "x" && ApplyLog(LogA(size))["k"] == "y";
    assert "x"[0] != "y"[0];
  }

  lemma AtStore(s: Cluster, n: Id, term: nat, role: Role, full: seq<Entry>, applied: nat)
    requires At(s, n, term, role, full, applied) && applied == |full|
    ensures n in s.nodes && s.nodes[n].lastApplied == applied && s.nodes[n].store == ApplyLog(full)
  {
    assert full[..|full|] == full;
  }

  /** For any snapshot interval from two on, three nodes that compact can get, by steps that obey all
      hypotheses but for one harmful AppendEntries, to where two of them have applied equally many entries
      and hold different stores. */
  lemma HarmfulAppendBreaksAgreement(s0: Cluster, a: Id, b: Id, c: Id)
      returns (before: seq<Step>, s1: Cluster, harmful: Step, s2: Cluster, after: seq<Step>, s3: Cluster)
    requires Init(s0) && s0.servers == {a, b, c} && a != b && a != c && b != c && s0.snapshotInterval >= 2
    ensures Leads(WithCompaction, s0, before, s1)
    ensures Enabled(s1, harmful) && RepliesInTerm(s1, harmful) && !AppendIsHarmless(s1, harmful)
    ensures harmful.DeliverAppendCall? && harmful.m.to == b && s2 == After(s1, harmful)
    ensures Leads(WithCompaction, s2, after, s3)
    ensures b in s3.nodes && c in s3.nodes
    ensures s3.nodes[b].lastApplied == s3.nodes[c].lastApplied && s3.nodes[b].store != s3.nodes[c].store
  {
    hide Leads, After, Enabled, RepliesInTerm, AppendIsHarmless, At, AfterFirst, BeforeLate, AfterLate, Init, LogB,
      LogC;
    var first, t1 := FirstTerm(s0, a, b, c);
    var second, t2 := SecondTerm(t1, a, b, c);
    LeadsOn(WithCompaction, s0, first, t1, second, t2);
    before, s1 := first + second, t2;
    harmful, s2 := LateArrives(t2, a, b, c);
    after, s3 := ThirdTerm(s2, a, b, c);
    var size := s2.snapshotInterval;
    LogFacts(size);
    StoresDiffer(size);
    AtStore(s3, b, 3, Follower, LogB(size) + [Last(size)], size + 2);
    AtStore(s3, c, 3, Leader, LogC(size) + [Last(size)], size + 2);
  }
}
