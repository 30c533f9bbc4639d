/** Why a Raft run must not let a positive vote arrive in a later term than it was cast for. */
module RaftStaleReplies {
  import opened Wrappers
  import opened RaftLogs
  import opened RaftNodes
  import opened RaftCluster
  import opened RaftPaths

  const A: Id := NodeId("a")
  const B: Id := NodeId("b")
  const C: Id := NodeId("c")

  ghost predicate Goes(s: Cluster, step: Step, s': Cluster) {
    Allowed(WithoutCompaction, s, step) && s' == After(s, step)
  }

  /** The state of a node that never had an entry, as elections change it. */
  function Voter(term: nat, vote: Option<Id>, role: Role, votes: map<nat, set<Id>>): NodeState {
    FRESH_NODE.(currentTerm := term, votedFor := vote, role := role, votes := votes)
  }

  ghost predicate Stand(s: Cluster, a: NodeState, b: NodeState, c: NodeState) {
    s.servers == {A, B, C} && s.nodes == map[A := a, B := b, C := c]
  }

  function Ask(n: Id, term: nat): VoteRequest {
    VoteRequest(term, n, 0, 0)
  }

  lemma TimeoutEffect(s: Cluster, n: Id, p: Id, node: NodeState)
    requires n in s.nodes && s.nodes[n] == node && n in s.servers && p in s.servers - {n}
    requires node.log == FRESH_NODE.log && node.lastApplied == 0 && node.role != Leader
    ensures var s' := After(s, Timeout(n));
            && Enabled(s, Timeout(n))
            && s'.servers == s.servers && s.sent <= s'.sent
            && s'.nodes == s.nodes[n := node.(currentTerm := node.currentTerm + 1, role := Candidate,
                                              votedFor := Some(n),
                                              votes := node.votes[node.currentTerm + 1 := {n}])]
            && VoteCall(p, Ask(n, node.currentTerm + 1)) in s'.sent
  {
    var s' := After(s, Timeout(n));
    var node' := s'.nodes[n];
    assert VoteRequestOf(node', s.ConfigOf(n)) == Ask(n, node.currentTerm + 1);
    assert p in s.ConfigOf(n).peers;
  }

  lemma VoteEffect(s: Cluster, n: Id, r: VoteRequest, node: NodeState)
    requires n in s.nodes && s.nodes[n] == node && n in s.servers && VoteCall(n, r) in s.sent
    requires node.log == FRESH_NODE.log && node.lastApplied == 0
    requires r.term > node.currentTerm && r.lastLogIndex == 0 && r.lastLogTerm == 0
    ensures var s' := After(s, DeliverVoteCall(VoteCall(n, r)));
            && Enabled(s, DeliverVoteCall(VoteCall(n, r)))
            && s'.servers == s.servers && s.sent <= s'.sent
            && s'.nodes == s.nodes[n := node.(currentTerm := r.term, role := Follower, votedFor := Some(r.candidate))]
            && VoteReply(n, r.candidate, r.term, r.term, true) in s'.sent
  {
  }

  lemma WinEffect(s: Cluster, n: Id, m: Message, node: NodeState)
    requires n in s.nodes && s.nodes[n] == node && s.servers == {A, B, C} && n in s.servers
    requires node.log == FRESH_NODE.log && node.lastApplied == 0 && node.role == Candidate
    requires m in s.sent && m.VoteReply? && m.to == n && m.from in s.servers - {n} && m.granted
    requires m.replyTerm <= node.currentTerm
    requires m.requestTerm in node.votes && node.votes[m.requestTerm] == {n}
    ensures var s' := After(s, DeliverVoteReply(m));
            && Enabled(s, DeliverVoteReply(m))
            && (RepliesInTerm(s, DeliverVoteReply(m)) <==> m.requestTerm == node.currentTerm)
            && s'.servers == s.servers && s.sent <= s'.sent
            && s'.nodes == s.nodes[n := s'.nodes[n]]
            && s'.nodes[n].role == Leader && s'.nodes[n].currentTerm == node.currentTerm
            && s'.nodes[n].log == node.log
  {
    hide Fill;
    assert {n} + (s.servers - {n}) == s.servers;
    assert |{n} + {m.from}| == 2;
    assert |s.servers| == 3;
  }

  const ASKING_A: NodeState := Voter(2, Some(A), Candidate, map[1 := {A}, 2 := {A}])
  const ASKING_C: NodeState := Voter(2, Some(C), Candidate, map[1 := {C}, 2 := {C}])
  const VOTED_FOR_A: NodeState := Voter(1, Some(A), Follower, map[])
  const SLOW_REPLY: Message := VoteReply(B, A, 1, 1, true)
  const PROMPT_REPLY: Message := VoteReply(B, C, 2, 2, true)

  /** `a` asks in term 1, `b` grants, `a` gives up and asks in term 2. */
  lemma AsksTwice(s0: Cluster) returns (s1: Cluster, s2: Cluster, s3: Cluster)
    requires Stand(s0, FRESH_NODE, FRESH_NODE, FRESH_NODE)
    ensures Goes(s0, Timeout(A), s1)
    ensures Goes(s1, DeliverVoteCall(VoteCall(B, Ask(A, 1))), s2)
    ensures Goes(s2, Timeout(A), s3)
    ensures Stand(s3, ASKING_A, VOTED_FOR_A, FRESH_NODE) && SLOW_REPLY in s3.sent
  {
    hide After, Enabled;
    TimeoutEffect(s0, A, B, FRESH_NODE);
    s1 := After(s0, Timeout(A));
    var a1 := Voter(1, Some(A), Candidate, map[1 := {A}]);
    assert Stand(s1, a1, FRESH_NODE, FRESH_NODE);
    VoteEffect(s1, B, Ask(A, 1), FRESH_NODE);
    s2 := After(s1, DeliverVoteCall(VoteCall(B, Ask(A, 1))));
    assert Stand(s2, a1, VOTED_FOR_A, FRESH_NODE);
    TimeoutEffect(s2, A, B, a1);
    s3 := After(s2, Timeout(A));
  }

  /** `c` times out twice. */
  lemma RivalAsks(s3: Cluster) returns (s4: Cluster, s5: Cluster)
    requires Stand(s3, ASKING_A, VOTED_FOR_A, FRESH_NODE)
    ensures Goes(s3, Timeout(C), s4)
    ensures Goes(s4, Timeout(C), s5)
    ensures Stand(s5, ASKING_A, VOTED_FOR_A, ASKING_C)
    ensures VoteCall(B, Ask(C, 2)) in s5.sent && s3.sent <= s5.sent
  {
    hide After, Enabled;
    TimeoutEffect(s3, C, B, FRESH_NODE);
    s4 := After(s3, Timeout(C));
    var c1 := Voter(1, Some(C), Candidate, map[1 := {C}]);
    assert Stand(s4, ASKING_A, VOTED_FOR_A, c1);
    TimeoutEffect(s4, C, B, c1);
    s5 := After(s4, Timeout(C));
  }

  /** `b` votes for it in term 2. */
  lemma RivalIsGranted(s5: Cluster) returns (s6: Cluster)
    requires Stand(s5, ASKING_A, VOTED_FOR_A, ASKING_C) && VoteCall(B, Ask(C, 2)) in s5.sent
    ensures Goes(s5, DeliverVoteCall(VoteCall(B, Ask(C, 2))), s6)
    ensures Stand(s6, ASKING_A, Voter(2, Some(C), Follower, map[]), ASKING_C)
    ensures PROMPT_REPLY in s6.sent && s5.sent <= s6.sent
  {
    hide After, Enabled;
    VoteEffect(s5, B, Ask(C, 2), VOTED_FOR_A);
    s6 := After(s5, DeliverVoteCall(VoteCall(B, Ask(C, 2))));
  }

  lemma SixSteps(s: seq<Cluster>, steps: seq<Step>)
    requires |s| == 7 && |steps| == 6 && forall i | 0 <= i < 6 :: Goes(s[i], steps[i], s[i + 1])
    ensures Leads(WithoutCompaction, s[0], steps, s[6])
  {
    hide Leads, After, Allowed;
    assert Goes(s[0], steps[0], s[0 + 1]);
    StepLeads(WithoutCompaction, s[0], steps[0]);
    var path := steps[..1];
    assert path == [steps[0]];
    for i := 1 to 6
      invariant path == steps[..i] && Leads(WithoutCompaction, s[0], path, s[i])
    {
      assert Goes(s[i], steps[i], s[i + 1]);
      OneMore(WithoutCompaction, s[0], path, s[i], steps[i]);
      assert steps[..i + 1] == path + [steps[i]];
      path := path + [steps[i]];
    }
    assert path == steps;
  }

  /** Three fresh nodes. `a` asks for votes in term 1 and gets the one of `b`, but the reply is
      slow; `a` and `c` move on to term 2, `b` votes for `c`, and `c` leads term 2. Then the reply
      of term 1 reaches `a`, which counts it and leads term 2 as well. Only this last step is against
      the hypothesis on replies. */
  lemma StaleVoteElectsTwoLeaders(s0: Cluster) returns (before: seq<Step>, s1: Cluster, stale: Step, s2: Cluster)
    requires Init(s0) && s0.servers == {A, B, C}
    ensures Leads(WithoutCompaction, s0, before, s1)
    ensures stale.DeliverVoteReply? && NoCompaction(s1) && Enabled(s1, stale) && !RepliesInTerm(s1, stale)
    ensures s2 == After(s1, stale)
    ensures A in s2.nodes && C in s2.nodes && s2.nodes[A].role == Leader && s2.nodes[C].role == Leader
    ensures s2.nodes[A].currentTerm == s2.nodes[C].currentTerm
  {
    hide After, Enabled, RepliesInTerm, Leads;
    assert s0.nodes == map[A := FRESH_NODE, B := FRESH_NODE, C := FRESH_NODE];
    var t1, t2, t3 := AsksTwice(s0);
    var t4, t5 := RivalAsks(t3);
    var t6 := RivalIsGranted(t5);
    var asked := [Timeout(A), DeliverVoteCall(VoteCall(B, Ask(A, 1))), Timeout(A), Timeout(C), Timeout(C),
                  DeliverVoteCall(VoteCall(B, Ask(C, 2)))];
    SixSteps([s0, t1, t2, t3, t4, t5, t6], asked);
    WinEffect(t6, C, PROMPT_REPLY, ASKING_C);
    OneMore(WithoutCompaction, s0, asked, t6, DeliverVoteReply(PROMPT_REPLY));
    before, s1, stale := asked + [DeliverVoteReply(PROMPT_REPLY)], After(t6, DeliverVoteReply(PROMPT_REPLY)),
                         DeliverVoteReply(SLOW_REPLY);
    WinEffect(s1, A, SLOW_REPLY, ASKING_A);
    s2 := After(s1, stale);
  }
}
