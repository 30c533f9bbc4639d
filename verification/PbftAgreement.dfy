/** A PBFT group with Byzantine members: agreement on every slot, over all runs. */
module PbftAgreement {
  import opened PbftNodes

  /** `pool` holds every message ever sent; the network may deliver any of them to any replica at
      any time, or never. Senders are authentic. Replicas outside `honest` send what they like. */
  datatype Group = Group(total: nat, honest: set<nat>, nodes: map<nat, NodeState>, pool: set<Message>)

  datatype Step =
    | Request(i: nat, digest: Digest)
    | Deliver(i: nat, m: Message)
    | ViewJump(i: nat, view: int)     // NEW_VIEW is not verified, so any view may come
    | Byzantine(m: Message)

  function Ids(total: nat): (ids: set<nat>)
    ensures forall i: nat :: i in ids <==> i < total
    ensures |ids| == total
  {
    if total == 0 then {} else Ids(total - 1) + {total - 1}
  }

  /** n = 3f + 1 replicas, at most f of them Byzantine. */
  ghost predicate Tolerant(g: Group) {
    && g.total > 0 && g.total % 3 == 1
    && g.honest <= Ids(g.total)
    && |Ids(g.total) - g.honest| <= (g.total - 1) / 3
  }

  ghost predicate Init(g: Group) {
    && Tolerant(g)
    && g.nodes.Keys == g.honest
    && (forall i | i in g.nodes :: g.nodes[i] == FRESH_NODE)
    && g.pool == {}
  }

  function ConfigOf(g: Group, i: nat): ReplicaConfig
    requires g.total > 0
  {
    Config(i, g.total)
  }

  function Put(g: Group, i: nat, r: (NodeState, seq<Message>)): Group {
    g.(nodes := g.nodes[i := r.0], pool := g.pool + set m | m in r.1)
  }

  ghost predicate Next(g: Group, step: Step, g': Group) {
    && g.total > 0
    && match step
       case Request(i, d) => i in g.nodes && g' == Put(g, i, HandleRequest(g.nodes[i], ConfigOf(g, i), d))
       case Deliver(i, m) => i in g.nodes && m in g.pool && g' == Put(g, i, Receive(g.nodes[i], ConfigOf(g, i), m))
       case ViewJump(i, v) => i in g.nodes && g' == g.(nodes := g.nodes[i := HandleNewView(g.nodes[i], v)])
       case Byzantine(m) => m.sender in Ids(g.total) - g.honest && g' == g.(pool := g.pool + {m})
  }

  ghost predicate IsRun(run: seq<Group>, steps: seq<Step>) {
    && |run| == |steps| + 1 && Init(run[0])
    && forall i | 0 <= i < |steps| :: Next(run[i], steps[i], run[i + 1])
  }

  // ----- The invariant -----

  /** Every vote a replica has stored was sent, and what it sent itself is in the pool. */
  ghost predicate CommitsSent(pool: set<Message>, commits: map<Slot, set<Vote>>) {
    forall k, v | k in commits && v in commits[k] :: CommitVote(v.sender, k, v.digest) in pool
  }

  ghost predicate Certified(total: nat, pool: set<Message>, k: Slot, d: Digest) {
    exists q: set<nat> :: IsCertificate(total, pool, k, d, q)
  }

  /** 2f + 1 different members sent a COMMIT for the slot with this digest. */
  ghost predicate IsCertificate(total: nat, pool: set<Message>, k: Slot, d: Digest, q: set<nat>) {
    q <= Ids(total) && |q| >= 2 * ((total - 1) / 3) + 1 && forall i | i in q :: CommitVote(i, k, d) in pool
  }

  ghost predicate NodeOk(total: nat, pool: set<Message>, i: nat, s: NodeState) {
    && s.voted.Keys == s.prepared
    && CommitsSent(pool, s.commits)
    && (forall m | m in pool && m.CommitVote? && m.sender == i :: m.slot in s.voted && s.voted[m.slot] == m.digest)
    && (forall k | k in s.decided :: Certified(total, pool, k, s.decided[k]))
    && s.decided.Keys == s.committed
  }

  ghost predicate SendersKnown(total: nat, pool: set<Message>) {
    forall m | m in pool :: m.sender in Ids(total)
  }

  ghost predicate Inv(g: Group) {
    && Tolerant(g)
    && g.nodes.Keys == g.honest
    && SendersKnown(g.total, g.pool)
    && forall i | i in g.nodes :: NodeOk(g.total, g.pool, i, g.nodes[i])
  }

  // ----- One replica -----

  lemma SendersOf(votes: set<Vote>, d: Digest) returns (q: set<nat>)
    ensures q == set v | v in Matching(votes, d) :: v.sender
    ensures |q| == |Matching(votes, d)|
    decreases |Matching(votes, d)|
  {
    q := set v | v in Matching(votes, d) :: v.sender;
    SameDigestSenders(Matching(votes, d), d);
  }

  lemma {:induction false} SameDigestSenders(votes: set<Vote>, d: Digest)
    requires forall v | v in votes :: v.digest == d
    ensures |set v | v in votes :: v.sender| == |votes|
  {
    if votes != {} {
      var w :| w in votes;
      SameDigestSenders(votes - {w}, d);
      var rest := set v | v in votes - {w} :: v.sender;
      forall u | u in votes - {w} ensures u.sender != w.sender {
        assert u.digest == w.digest;
      }
      assert (set v | v in votes :: v.sender) == rest + {w.sender};
    }
  }

  lemma CertifiedGrows(total: nat, pool: set<Message>, pool': set<Message>, k: Slot, d: Digest)
    requires pool <= pool' && Certified(total, pool, k, d)
    ensures Certified(total, pool', k, d)
  {
    var q :| IsCertificate(total, pool, k, d, q);
    assert IsCertificate(total, pool', k, d, q);
  }

  /** 2f + 1 stored votes for a digest are a certificate. */
  lemma VotesCertify(g: Group, pool: set<Message>, votes: set<Vote>, k: Slot, d: Digest)
    requires SendersKnown(g.total, pool)
    requires forall v | v in votes :: CommitVote(v.sender, k, v.digest) in pool
    requires |Matching(votes, d)| >= 2 * ((g.total - 1) / 3) + 1
    ensures Certified(g.total, pool, k, d)
  {
    var q := SendersOf(votes, d);
    forall i | i in q ensures CommitVote(i, k, d) in pool && i in Ids(g.total) {
      var v :| v in Matching(votes, d) && v.sender == i;
      assert CommitVote(v.sender, k, v.digest) in pool;
    }
    assert IsCertificate(g.total, pool, k, d, q);
  }

  /** Storing a sent vote. */
  lemma AddVoteSent(pool: set<Message>, commits: map<Slot, set<Vote>>, k: Slot, v: Vote)
    requires CommitsSent(pool, commits) && CommitVote(v.sender, k, v.digest) in pool
    ensures CommitsSent(pool, AddVote(commits, k, v))
  {
  }

  lemma CheckCommittedOk(g: Group, pool: set<Message>, i: nat, s: NodeState, k: Slot, d: Digest)
    requires g.total > 0 && SendersKnown(g.total, pool)
    requires NodeOk(g.total, pool, i, s)
    ensures NodeOk(g.total, pool, i, CheckCommitted(s, ConfigOf(g, i), k, d))
  {
    var s' := CheckCommitted(s, ConfigOf(g, i), k, d);
    if s' != s {
      VotesCertify(g, pool, VotesAt(s.commits, k), k, d);
    }
  }

  lemma PoolGrows(total: nat, pool: set<Message>, out: set<Message>, i: nat, s: NodeState)
    requires NodeOk(total, pool, i, s)
    requires forall m | m in out && m.CommitVote? :: m.sender != i
    ensures NodeOk(total, pool + out, i, s)
  {
    forall k | k in s.decided ensures Certified(total, pool + out, k, s.decided[k]) {
      CertifiedGrows(total, pool, pool + out, k, s.decided[k]);
    }
  }

  lemma NothingSent(pool: set<Message>)
    ensures pool + (set m | m in []) == pool
  {
  }

  ghost predicate NodeKeeps(total: nat, pool: set<Message>, i: nat, r: (NodeState, seq<Message>)) {
    && NodeOk(total, pool + (set m | m in r.1), i, r.0)
    && forall m | m in r.1 :: m.sender == i
  }

  /** The state `check_prepared` hands to `check_committed` once the slot is prepared. */
  function Prepared(s: NodeState, i: nat, k: Slot, d: Digest): NodeState {
    s.(prepared := s.prepared + {k}, voted := s.voted[k := d], commits := AddVote(s.commits, k, Vote(i, d)))
  }

  lemma PreparedOk(total: nat, pool: set<Message>, i: nat, s: NodeState, k: Slot, d: Digest)
    requires NodeOk(total, pool, i, s) && k !in s.prepared
    ensures NodeOk(total, pool + {CommitVote(i, k, d)}, i, Prepared(s, i, k, d))
  {
    hide Certified;
    var pool' := pool + {CommitVote(i, k, d)};
    AddVoteSent(pool', s.commits, k, Vote(i, d));
    forall j | j in s.decided ensures Certified(total, pool', j, s.decided[j]) {
      CertifiedGrows(total, pool, pool', j, s.decided[j]);
    }
  }

  /** A replica sends its COMMIT for a slot once, for the digest it is then recorded to have voted. */
  lemma CheckPreparedOk(g: Group, i: nat, s: NodeState, k: Slot, d: Digest)
    requires g.total > 0 && i in Ids(g.total) && SendersKnown(g.total, g.pool)
    requires NodeOk(g.total, g.pool, i, s) && k.view == s.view
    ensures NodeKeeps(g.total, g.pool, i, CheckPrepared(s, ConfigOf(g, i), k, d))
  {
    hide NodeOk, CheckCommitted;
    var r := CheckPrepared(s, ConfigOf(g, i), k, d);
    if r.1 == [] {
      NothingSent(g.pool);
    } else {
      var vote := CommitVote(i, k, d);
      assert r == (CheckCommitted(Prepared(s, i, k, d), ConfigOf(g, i), k, d), [vote]);
      PreparedOk(g.total, g.pool, i, s, k, d);
      CheckCommittedOk(g, g.pool + {vote}, i, Prepared(s, i, k, d), k, d);
      hide CheckPrepared;
      assert (set m | m in r.1) == {vote};
    }
  }

  lemma SentTwice(pool: set<Message>, first: Message, more: seq<Message>)
    ensures pool + (set m | m in [first] + more) == pool + (set m | m in more) + {first}
  {
  }

  lemma PrePrepareOk(g: Group, i: nat, s: NodeState, m: Message)
    requires g.total > 0 && i in Ids(g.total) && SendersKnown(g.total, g.pool)
    requires NodeOk(g.total, g.pool, i, s) && m.PrePrepare?
    ensures NodeKeeps(g.total, g.pool, i, HandlePrePrepare(s, ConfigOf(g, i), m))
  {
    hide Certified, CommitsSent, SendersKnown, Ids, CheckPrepared;
    var c, k, d := ConfigOf(g, i), m.slot, m.digest;
    NothingSent(g.pool);
    if k.view == s.view && k !in s.prePrepares {
      var prepare := Prepare(i, Slot(s.view, k.number), d);
      var s1 := s.(prePrepares := s.prePrepares[k := m], prepares := AddVote(s.prepares, k, Vote(i, d)));
      assert NodeOk(g.total, g.pool, i, s1);
      hide NodeOk;
      CheckPreparedOk(g, i, s1, k, d);
      var more := CheckPrepared(s1, c, k, d);
      PoolGrows(g.total, g.pool + (set x | x in more.1), {prepare}, i, more.0);
      SentTwice(g.pool, prepare, more.1);
    }
  }

  lemma PrepareOk(g: Group, i: nat, s: NodeState, m: Message)
    requires g.total > 0 && i in Ids(g.total) && SendersKnown(g.total, g.pool)
    requires NodeOk(g.total, g.pool, i, s) && m.Prepare?
    ensures NodeKeeps(g.total, g.pool, i, HandlePrepare(s, ConfigOf(g, i), m))
  {
    hide Certified, CommitsSent, CheckPrepared;
    NothingSent(g.pool);
    if m.slot.view == s.view {
      var s1 := s.(prepares := AddVote(s.prepares, m.slot, Vote(m.sender, m.digest)));
      assert NodeOk(g.total, g.pool, i, s1);
      hide NodeOk;
      if m.slot in s.prePrepares && s.prePrepares[m.slot].digest == m.digest {
        CheckPreparedOk(g, i, s1, m.slot, m.digest);
      }
    }
  }

  lemma CommitOk(g: Group, i: nat, s: NodeState, m: Message)
    requires g.total > 0 && i in Ids(g.total) && SendersKnown(g.total, g.pool)
    requires NodeOk(g.total, g.pool, i, s) && m.CommitVote? && m in g.pool
    ensures NodeKeeps(g.total, g.pool, i, HandleCommit(s, ConfigOf(g, i), m))
  {
    hide Certified, CheckCommitted;
    NothingSent(g.pool);
    if m.slot.view == s.view {
      var s1 := s.(commits := AddVote(s.commits, m.slot, Vote(m.sender, m.digest)));
      AddVoteSent(g.pool, s.commits, m.slot, Vote(m.sender, m.digest));
      hide CommitsSent, AddVote;
      assert NodeOk(g.total, g.pool, i, s1);
      hide NodeOk;
      CheckCommittedOk(g, g.pool, i, s1, m.slot, m.digest);
    }
  }

  lemma ReceiveOk(g: Group, i: nat, s: NodeState, m: Message)
    requires g.total > 0 && i in Ids(g.total) && SendersKnown(g.total, g.pool)
    requires NodeOk(g.total, g.pool, i, s) && m in g.pool
    ensures NodeKeeps(g.total, g.pool, i, Receive(s, ConfigOf(g, i), m))
  {
    hide NodeOk, NodeKeeps, HandlePrePrepare, HandlePrepare, HandleCommit;
    match m
    case PrePrepare(_, _, _) => PrePrepareOk(g, i, s, m);
    case Prepare(_, _, _) => PrepareOk(g, i, s, m);
    case CommitVote(_, _, _) => CommitOk(g, i, s, m);
  }

  // ----- The group -----

  lemma PutKeepsInv(g: Group, i: nat, r: (NodeState, seq<Message>))
    requires i in g.nodes && Inv(g)
    requires NodeKeeps(g.total, g.pool, i, r)
    ensures Inv(Put(g, i, r))
  {
    var g', out := Put(g, i, r), set m | m in r.1;
    KnownSenderAdds(g.total, g.pool, out, i);
    assert Tolerant(g');
    hide Tolerant, SendersKnown, Ids;
    forall j | j in g.nodes && j != i ensures NodeOk(g.total, g'.pool, j, g.nodes[j]) {
      PoolGrows(g.total, g.pool, out, j, g.nodes[j]);
    }
    hide NodeOk;
    forall j | j in g'.nodes ensures NodeOk(g'.total, g'.pool, j, g'.nodes[j]) {
      if j != i {
        assert g'.nodes[j] == g.nodes[j];
      }
    }
    assert g'.nodes.Keys == g.nodes.Keys;
  }

  lemma RequestOk(g: Group, i: nat, s: NodeState, d: Digest)
    requires g.total > 0 && NodeOk(g.total, g.pool, i, s)
    ensures NodeKeeps(g.total, g.pool, i, HandleRequest(s, ConfigOf(g, i), d))
  {
    var r := HandleRequest(s, ConfigOf(g, i), d);
    PoolGrows(g.total, g.pool, (set m | m in r.1), i, s);
  }

  lemma KnownSenderAdds(total: nat, pool: set<Message>, out: set<Message>, i: nat)
    requires SendersKnown(total, pool) && i in Ids(total) && forall m | m in out :: m.sender == i
    ensures SendersKnown(total, pool + out)
  {
    hide Ids;
  }

  lemma ByzantineKeepsInv(g: Group, m: Message)
    requires g.total > 0 && m.sender in Ids(g.total) - g.honest && Inv(g)
    ensures Inv(g.(pool := g.pool + {m}))
  {
    KnownSenderAdds(g.total, g.pool, {m}, m.sender);
    assert Tolerant(g.(pool := g.pool + {m}));
    hide NodeOk, Tolerant, SendersKnown, Ids;
    forall j | j in g.nodes ensures NodeOk(g.total, g.pool + {m}, j, g.nodes[j]) {
      PoolGrows(g.total, g.pool, {m}, j, g.nodes[j]);
    }
  }

  lemma ViewJumpKeepsInv(g: Group, i: nat, v: int)
    requires i in g.nodes && Inv(g)
    ensures Inv(g.(nodes := g.nodes[i := HandleNewView(g.nodes[i], v)]))
  {
    assert g.nodes[i := HandleNewView(g.nodes[i], v)].Keys == g.nodes.Keys;
    assert Tolerant(g.(nodes := g.nodes[i := HandleNewView(g.nodes[i], v)]));
    hide Certified, CommitsSent, Tolerant;
  }

  /** The membership is fixed and the pool only grows. */
  lemma StepFrames(g: Group, step: Step, g': Group)
    requires Next(g, step, g')
    ensures g'.total == g.total && g'.honest == g.honest && g.pool <= g'.pool
  {
    hide HandleRequest, Receive;
  }

  lemma StepKeepsInv(g: Group, step: Step, g': Group)
    requires Inv(g) && Next(g, step, g')
    ensures Inv(g')
  {
    hide NodeKeeps, HandleRequest, Receive, SendersKnown, Ids;
    match step
    case Request(i, d) =>
      hide NodeOk;
      RequestOk(g, i, g.nodes[i], d);
      PutKeepsInv(g, i, HandleRequest(g.nodes[i], ConfigOf(g, i), d));
    case Deliver(i, m) =>
      hide NodeOk;
      ReceiveOk(g, i, g.nodes[i], m);
      PutKeepsInv(g, i, Receive(g.nodes[i], ConfigOf(g, i), m));
    case ViewJump(i, v) =>
      ViewJumpKeepsInv(g, i, v);
    case Byzantine(m) =>
      ByzantineKeepsInv(g, m);
  }

  lemma InitInv(g: Group)
    requires Init(g)
    ensures Inv(g)
  {
  }

  lemma {:induction false} RunsKeepInv(run: seq<Group>, steps: seq<Step>, i: nat)
    requires i < |run| && IsRun(run, steps)
    ensures Inv(run[i]) && run[i].total == run[0].total && run[i].honest == run[0].honest
    decreases i
  {
    hide Inv, Next, Init;
    if i == 0 {
      InitInv(run[0]);
    } else {
      RunsKeepInv(run, steps, i - 1);
      assert Next(run[i - 1], steps[i - 1], run[i - 1 + 1]);
      StepKeepsInv(run[i - 1], steps[i - 1], run[i]);
      StepFrames(run[i - 1], steps[i - 1], run[i]);
    }
  }

  lemma {:induction false} PoolsGrow(run: seq<Group>, steps: seq<Step>, i: nat, j: nat)
    requires i <= j < |run| && IsRun(run, steps)
    ensures run[i].pool <= run[j].pool
    decreases j
  {
    hide Inv, Next, Init;
    if i < j {
      PoolsGrow(run, steps, i, j - 1);
      assert Next(run[j - 1], steps[j - 1], run[j - 1 + 1]);
      StepFrames(run[j - 1], steps[j - 1], run[j]);
    }
  }

  // ----- Quorums -----

  lemma SubsetIsSmaller(a: set<nat>, b: set<nat>)
    requires a <= b
    ensures |a| <= |b|
  {
    assert b == a + (b - a);
  }

  /** Two certificates share an honest member. */
  lemma CertificatesMeet(g: Group, p: set<nat>, q: set<nat>) returns (h: nat)
    requires Tolerant(g)
    requires p <= Ids(g.total) && q <= Ids(g.total)
    requires |p| >= 2 * ((g.total - 1) / 3) + 1 && |q| >= 2 * ((g.total - 1) / 3) + 1
    ensures h in p && h in q && h in g.honest
  {
    SubsetIsSmaller(p + q, Ids(g.total));
    assert |p + q| + |p * q| == |p| + |q|;
    var faulty := Ids(g.total) - g.honest;
    if p * q <= faulty {
      SubsetIsSmaller(p * q, faulty);
      assert false;
    }
    h :| h in p * q && h !in faulty;
  }

  /** Agreement: whatever two honest replicas decide for the same slot, at whatever moments of the
      run and whatever views they jump to in between, they decide the same digest. */
  lemma Agreement(run: seq<Group>, steps: seq<Step>, i: nat, j: nat, p: nat, q: nat, k: Slot)
    requires IsRun(run, steps) && i < |run| && j < |run|
    requires p in run[i].nodes && k in run[i].nodes[p].decided
    requires q in run[j].nodes && k in run[j].nodes[q].decided
    ensures run[i].nodes[p].decided[k] == run[j].nodes[q].decided[k]
  {
    var last := if i <= j then j else i;
    RunsKeepInv(run, steps, i);
    RunsKeepInv(run, steps, j);
    RunsKeepInv(run, steps, last);
    PoolsGrow(run, steps, i, last);
    PoolsGrow(run, steps, j, last);
    CertificatesAgree(run[last], k, run[i].nodes[p].decided[k], run[j].nodes[q].decided[k]) by {
      CertifiedGrows(run[i].total, run[i].pool, run[last].pool, k, run[i].nodes[p].decided[k]);
      CertifiedGrows(run[j].total, run[j].pool, run[last].pool, k, run[j].nodes[q].decided[k]);
    }
  }

  lemma CertificatesAgree(g: Group, k: Slot, d: Digest, d': Digest)
    requires Inv(g) && Certified(g.total, g.pool, k, d) && Certified(g.total, g.pool, k, d')
    ensures d == d'
  {
    var a :| IsCertificate(g.total, g.pool, k, d, a);
    var b :| IsCertificate(g.total, g.pool, k, d', b);
    var h := CertificatesMeet(g, a, b);
    assert NodeOk(g.total, g.pool, h, g.nodes[h]);
    assert CommitVote(h, k, d) in g.pool && CommitVote(h, k, d') in g.pool;
  }

  /** What an honest replica has committed it has decided, and 2f + 1 members vouch for it. */
  lemma CommittedIsCertified(run: seq<Group>, steps: seq<Step>, i: nat, p: nat, k: Slot)
    requires IsRun(run, steps) && i < |run| && p in run[i].nodes
    requires k in run[i].nodes[p].committed
    ensures k in run[i].nodes[p].decided && Certified(run[i].total, run[i].pool, k, run[i].nodes[p].decided[k])
  {
    RunsKeepInv(run, steps, i);
    assert NodeOk(run[i].total, run[i].pool, p, run[i].nodes[p]);
  }

  // ----- Who assigns slots -----

  /** The PRE-PREPAREs a replica has sent are for views it is the primary of, and numbered one by one. */
  ghost predicate Assigns(total: nat, pool: set<Message>, i: nat, s: NodeState)
    requires total > 0
  {
    && s.seqNum >= 0
    && (forall m | IsAssignment(pool, i, m) :: m.slot.view % total == i && 1 <= m.slot.number <= s.seqNum)
    && (forall m, m' | IsAssignment(pool, i, m) && IsAssignment(pool, i, m') && m.slot.number == m'.slot.number ::
          m == m')
  }

  predicate IsAssignment(pool: set<Message>, i: nat, m: Message) {
    m in pool && m.PrePrepare? && m.sender == i
  }

  lemma ReceiveAssignsNothing(s: NodeState, c: ReplicaConfig, m: Message)
    ensures var r := Receive(s, c, m); r.0.seqNum == s.seqNum && forall x | x in r.1 :: !x.PrePrepare?
  {
    hide Matching, AddVote, VotesAt;
  }

  lemma AssignsKept(total: nat, pool: set<Message>, out: set<Message>, i: nat, s: NodeState, s': NodeState)
    requires total > 0 && Assigns(total, pool, i, s) && s'.seqNum == s.seqNum
    requires forall m | m in out :: !m.PrePrepare? || m.sender != i
    ensures Assigns(total, pool + out, i, s')
  {
  }

  lemma OneMoreAssigned(total: nat, pool: set<Message>, i: nat, s: NodeState, d: Digest)
    requires total > 0 && Assigns(total, pool, i, s) && i == s.view % total
    ensures Assigns(total, pool + {PrePrepare(i, Slot(s.view, s.seqNum + 1), d)}, i, s.(seqNum := s.seqNum + 1))
  {
  }

  ghost predicate AllAssign(g: Group) {
    g.total > 0 && forall i | i in g.nodes :: Assigns(g.total, g.pool, i, g.nodes[i])
  }

  lemma RequestKeepsAssigns(g: Group, i: nat, d: Digest)
    requires i in g.nodes && AllAssign(g)
    ensures AllAssign(Put(g, i, HandleRequest(g.nodes[i], ConfigOf(g, i), d)))
  {
    hide Assigns;
    var s, g' := g.nodes[i], Put(g, i, HandleRequest(g.nodes[i], ConfigOf(g, i), d));
    if i == s.view % g.total {
      var m := PrePrepare(i, Slot(s.view, s.seqNum + 1), d);
      assert g'.pool == g.pool + {m};
      OneMoreAssigned(g.total, g.pool, i, s, d);
      AssignsKept(g.total, g'.pool, {}, i, s.(seqNum := s.seqNum + 1), g'.nodes[i]);
      assert g'.pool + {} == g'.pool;
      forall j | j in g.nodes && j != i ensures Assigns(g.total, g'.pool, j, g.nodes[j]) {
        AssignsKept(g.total, g.pool, {m}, j, g.nodes[j], g.nodes[j]);
      }
    } else {
      NothingSent(g.pool);
    }
  }

  lemma DeliverKeepsAssigns(g: Group, i: nat, m: Message)
    requires i in g.nodes && AllAssign(g)
    ensures AllAssign(Put(g, i, Receive(g.nodes[i], ConfigOf(g, i), m)))
  {
    hide Assigns, Receive;
    var r := Receive(g.nodes[i], ConfigOf(g, i), m);
    var g', out := Put(g, i, r), set x | x in r.1;
    ReceiveAssignsNothing(g.nodes[i], ConfigOf(g, i), m);
    forall j | j in g.nodes ensures Assigns(g.total, g'.pool, j, g'.nodes[j]) {
      AssignsKept(g.total, g.pool, out, j, g.nodes[j], g'.nodes[j]);
    }
  }

  lemma StepKeepsAssigns(g: Group, step: Step, g': Group)
    requires AllAssign(g) && g.nodes.Keys == g.honest && Next(g, step, g')
    ensures AllAssign(g') && g'.nodes.Keys == g'.honest && g'.total == g.total
  {
    hide Assigns, Receive, HandleRequest;
    match step
    case Request(i, d) => RequestKeepsAssigns(g, i, d);
    case Deliver(i, m) => DeliverKeepsAssigns(g, i, m);
    case ViewJump(i, v) =>
      AssignsKept(g.total, g.pool, {}, i, g.nodes[i], g'.nodes[i]);
      assert g.pool + {} == g.pool;
    case Byzantine(m) =>
      forall j | j in g.nodes ensures Assigns(g.total, g'.pool, j, g.nodes[j]) {
        AssignsKept(g.total, g.pool, {m}, j, g.nodes[j], g.nodes[j]);
      }
  }

  lemma {:induction false} RunsKeepAssigns(run: seq<Group>, steps: seq<Step>, i: nat)
    requires i < |run| && IsRun(run, steps)
    ensures AllAssign(run[i]) && run[i].nodes.Keys == run[i].honest && run[i].total == run[0].total
    decreases i
  {
    hide Next, Assigns;
    if i == 0 {
      FreshAssign(run[0]);
    } else {
      RunsKeepAssigns(run, steps, i - 1);
      assert Next(run[i - 1], steps[i - 1], run[i - 1 + 1]);
      StepKeepsAssigns(run[i - 1], steps[i - 1], run[i]);
    }
  }

  lemma FreshAssign(g: Group)
    requires Init(g)
    ensures AllAssign(g)
  {
  }

  /** The primary of a view is the replica whose id is the view's remainder by the size of the group: in
      every run, through all view jumps, an honest replica assigns slots of such views only, so no two honest
      replicas assign in one view, and no honest replica assigns one number twice. */
  lemma PrimariesAssign(run: seq<Group>, steps: seq<Step>, i: nat, a: Message, b: Message)
    requires i < |run| && IsRun(run, steps) && run[i].total > 0
    requires a in run[i].pool && a.PrePrepare? && a.sender in run[i].honest
    requires b in run[i].pool && b.PrePrepare? && b.sender in run[i].honest
    ensures a.slot.view % run[i].total == a.sender
    ensures a.slot.view == b.slot.view ==> a.sender == b.sender
    ensures a.sender == b.sender && a.slot.number == b.slot.number ==> a == b
    ensures a.slot == b.slot ==> a == b
  {
    hide IsRun;
    RunsKeepAssigns(run, steps, i);
    var g := run[i];
    assert Assigns(g.total, g.pool, a.sender, g.nodes[a.sender]);
    assert Assigns(g.total, g.pool, b.sender, g.nodes[b.sender]);
    assert IsAssignment(g.pool, a.sender, a) && IsAssignment(g.pool, b.sender, b);
  }

  /** Conversely, a request at the primary of the view the replica is in adds exactly one PRE-PREPARE, of
      that view and with a number it has not used; at any other replica a request changes nothing. */
  lemma RequestAssigns(run: seq<Group>, steps: seq<Step>, n: nat)
    requires n < |steps| && IsRun(run, steps) && steps[n].Request? && steps[n].i in run[n].nodes && run[n].total > 0
    ensures var g, g', i, s := run[n], run[n + 1], steps[n].i, run[n].nodes[steps[n].i];
            var m := PrePrepare(i, Slot(s.view, s.seqNum + 1), steps[n].digest);
            if i == s.view % g.total then
              && g'.pool == g.pool + {m} && m !in g.pool
              && g'.nodes == g.nodes[i := s.(seqNum := m.slot.number, prePrepares := s.prePrepares[m.slot := m])]
              && forall x | x in g.pool && x.PrePrepare? && x.sender == i :: x.slot.number < m.slot.number
            else g' == g
  {
    RunsKeepAssigns(run, steps, n);
    assert Next(run[n], steps[n], run[n + 1]);
    var g, i := run[n], steps[n].i;
    assert Assigns(g.total, g.pool, i, g.nodes[i]);
    forall x | x in g.pool && x.PrePrepare? && x.sender == i ensures x.slot.number <= g.nodes[i].seqNum {
      assert IsAssignment(g.pool, i, x);
    }
    if i != g.nodes[i].view % g.total {
      NothingSent(g.pool);
      assert g.nodes[i := g.nodes[i]] == g.nodes;
    }
  }
}
