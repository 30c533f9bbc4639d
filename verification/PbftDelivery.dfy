/** The fault-free PBFT group in one view, the first or any other: no delivery order loses a trigger. Once
    everything sent has been delivered, every replica has committed every slot the primary assigned. */
module PbftDelivery {
  import opened PbftNodes
  import opened PbftAgreement

  /** A view and its primary. */
  datatype Lead = Lead(view: int, primary: nat)

  /** A run of honest replicas that are all in one view and have assigned nothing before; no view change
      happens, and a broadcast goes to the other replicas only. Deliveries may come in any order and more
      than once. */
  ghost predicate IsFaultFree(l: Lead, run: seq<Group>, steps: seq<Step>) {
    && |run| == |steps| + 1
    && run[0].total > 0 && l.primary == l.view % run[0].total
    && IsFresh(l, run[0])
    && forall i | 0 <= i < |steps| :: Next(run[i], steps[i], run[i + 1]) && IsNormal(steps[i])
  }

  ghost predicate IsFresh(l: Lead, g: Group) {
    && g.honest == Ids(g.total) && g.nodes.Keys == g.honest && g.pool == {}
    && forall i | i in g.nodes :: g.nodes[i] == HandleNewView(FRESH_NODE, l.view)
  }

  predicate IsNormal(step: Step) {
    step.Request? || (step.Deliver? && step.i != step.m.sender)
  }

  /** Everything in the pool has been delivered to every other replica. */
  ghost predicate IsQuiet(g: Group, done: set<Step>) {
    forall m, i | m in g.pool && i in g.nodes && i != m.sender :: Deliver(i, m) in done
  }

  function Performed(steps: seq<Step>): set<Step> {
    set s | s in steps
  }

  // ----- The invariant -----

  /** What a replica holds is backed by the pool, and what it owes has been sent. */
  ghost predicate Backed(l: Lead, pool: set<Message>, i: nat, s: NodeState) {
    && s.view == l.view
    && (forall k | k in s.prePrepares :: IsAssigned(l, pool, k, s.prePrepares[k]))
    && (i != l.primary ==> forall k | k in s.prePrepares :: HasPrepared(pool, i, s, k, s.prePrepares[k].digest))
    && s.prepared <= s.prePrepares.Keys
    && (forall k | k in s.prepared :: HasVoted(pool, i, s, k, s.prePrepares[k].digest))
    && s.committed <= s.prepared
    && (forall k | k in s.committed :: k in s.decided && s.decided[k] == s.prePrepares[k].digest)
    && (forall k, v | k in s.prepares && v in s.prepares[k] :: PrePrepare(l.primary, k, v.digest) in pool)
  }

  ghost predicate IsAssigned(l: Lead, pool: set<Message>, k: Slot, m: Message) {
    m == PrePrepare(l.primary, k, m.digest) && m in pool
  }

  ghost predicate HasPrepared(pool: set<Message>, i: nat, s: NodeState, k: Slot, d: Digest) {
    Prepare(i, k, d) in pool && Vote(i, d) in VotesAt(s.prepares, k)
  }

  ghost predicate HasVoted(pool: set<Message>, i: nat, s: NodeState, k: Slot, d: Digest) {
    CommitVote(i, k, d) in pool && Vote(i, d) in VotesAt(s.commits, k)
  }

  /** What was delivered to a replica is stored there. */
  ghost predicate Stores(s: NodeState, m: Message) {
    match m
    case PrePrepare(_, k, _) => k in s.prePrepares
    case Prepare(j, k, d) => Vote(j, d) in VotesAt(s.prepares, k)
    case CommitVote(j, k, d) => Vote(j, d) in VotesAt(s.commits, k)
  }

  ghost predicate StoresAll(done: set<Step>, i: nat, s: NodeState) {
    forall m | Deliver(i, m) in done :: Stores(s, m)
  }

  /** A slot waits only while a quorum is missing. */
  ghost predicate Triggered(total: nat, s: NodeState, k: Slot)
    requires total > 0
  {
    k in s.prePrepares ==>
      var f, d := (total - 1) / 3, s.prePrepares[k].digest;
      && (k !in s.prepared ==>
          |Matching(VotesAt(s.prepares, k), d)| < 2 * f || Matching(VotesAt(s.prepares, k), d) == {})
      && (k in s.prepared && k !in s.committed ==> |Matching(VotesAt(s.commits, k), d)| < 2 * f + 1)
  }

  ghost predicate Alert(total: nat, s: NodeState)
    requires total > 0
  {
    forall k | k in s.prePrepares :: Triggered(total, s, k)
  }

  ghost predicate NodeLive(l: Lead, total: nat, pool: set<Message>, done: set<Step>, i: nat, s: NodeState)
    requires total > 0
  {
    Backed(l, pool, i, s) && StoresAll(done, i, s) && Alert(total, s)
  }

  /** Every message refers to an assignment of the primary, which assigns 1, 2, 3, ... once each. */
  ghost predicate PoolLive(l: Lead, total: nat, pool: set<Message>, primary: NodeState) {
    && (forall m | m in pool :: m.sender < total && PrePrepare(l.primary, m.slot, m.digest) in pool)
    && (forall m | m in pool && m.PrePrepare? :: m.slot in primary.prePrepares && primary.prePrepares[m.slot] == m)
    && primary.seqNum >= 0
    && (forall k :: k in primary.prePrepares <==> k.view == l.view && 1 <= k.number <= primary.seqNum)
  }

  ghost predicate LiveInv(l: Lead, g: Group, done: set<Step>) {
    && g.total > 0 && g.nodes.Keys == Ids(g.total) && l.primary == l.view % g.total
    && PoolLive(l, g.total, g.pool, g.nodes[l.primary])
    && forall i | i in g.nodes :: NodeLive(l, g.total, g.pool, done, i, g.nodes[i])
  }

  // ----- One replica -----

  lemma BackedGrows(l: Lead, pool: set<Message>, pool': set<Message>, i: nat, s: NodeState)
    requires pool <= pool' && Backed(l, pool, i, s)
    ensures Backed(l, pool', i, s)
  {
    forall k | k in s.prePrepares ensures IsAssigned(l, pool', k, s.prePrepares[k]) {
      assert IsAssigned(l, pool, k, s.prePrepares[k]);
    }
    if i != l.primary {
      forall k | k in s.prePrepares ensures HasPrepared(pool', i, s, k, s.prePrepares[k].digest) {
        assert HasPrepared(pool, i, s, k, s.prePrepares[k].digest);
      }
    }
    forall k | k in s.prepared ensures HasVoted(pool', i, s, k, s.prePrepares[k].digest) {
      assert HasVoted(pool, i, s, k, s.prePrepares[k].digest);
    }
  }

  lemma CheckCommittedLive(l: Lead, total: nat, pool: set<Message>, done: set<Step>, i: nat, s: NodeState, k: Slot)
    requires total > 0 && k in s.prePrepares && Backed(l, pool, i, s) && StoresAll(done, i, s)
    requires forall j | j in s.prePrepares && j != k :: Triggered(total, s, j)
    requires k !in s.prepared ==> Triggered(total, s, k)
    ensures NodeLive(l, total, pool, done, i, CheckCommitted(s, Config(i, total), k, s.prePrepares[k].digest))
  {
    var s' := CheckCommitted(s, Config(i, total), k, s.prePrepares[k].digest);
    assert Backed(l, pool, i, s') by {
      forall j | j in s.prepared ensures HasVoted(pool, i, s', j, s.prePrepares[j].digest) {
        assert HasVoted(pool, i, s, j, s.prePrepares[j].digest);
      }
      if i != l.primary {
        forall j | j in s.prePrepares ensures HasPrepared(pool, i, s', j, s.prePrepares[j].digest) {
          assert HasPrepared(pool, i, s, j, s.prePrepares[j].digest);
        }
      }
    }
    assert StoresAll(done, i, s') by {
      forall m | Deliver(i, m) in done ensures Stores(s', m) {
        assert Stores(s, m);
      }
    }
    assert Triggered(total, s', k);
    forall j | j in s'.prePrepares ensures Triggered(total, s', j) {
      assert j == k || Triggered(total, s, j);
    }
  }

  lemma PreparedLive(l: Lead, total: nat, pool: set<Message>, done: set<Step>, i: nat, s: NodeState, k: Slot)
    requires total > 0 && k in s.prePrepares && Backed(l, pool, i, s) && StoresAll(done, i, s)
    requires forall j | j in s.prePrepares && j != k :: Triggered(total, s, j)
    ensures var d := s.prePrepares[k].digest;
            NodeLive(l, total, pool + {CommitVote(i, k, d)}, done, i,
                     CheckCommitted(Prepared(s, i, k, d), Config(i, total), k, d))
  {
    hide Triggered, CheckCommitted, StoresAll, NodeLive, Backed;
    var d := s.prePrepares[k].digest;
    var s1 := Prepared(s, i, k, d);
    OthersStayTriggered(total, s, s1, k);
    BackedGrows(l, pool, pool + {CommitVote(i, k, d)}, i, s);
    PreparedKeepsBacked(l, pool + {CommitVote(i, k, d)}, done, i, s, k);
    CheckCommittedLive(l, total, pool + {CommitVote(i, k, d)}, done, i, s1, k);
  }

  /** `check_prepared` as a branch on whether it has anything to do. */
  predicate ChecksIn(total: nat, s: NodeState, k: Slot, d: Digest)
    requires total > 0
  {
    k !in s.prepared && |Matching(VotesAt(s.prepares, k), d)| >= 2 * ((total - 1) / 3)
  }

  lemma CheckPreparedBranches(total: nat, s: NodeState, i: nat, k: Slot, d: Digest)
    requires total > 0 && k.view == s.view
    ensures var c := Config(i, total);
            CheckPrepared(s, c, k, d) == if ChecksIn(total, s, k, d)
                then (CheckCommitted(Prepared(s, i, k, d), c, k, d), [CommitVote(i, k, d)])
                                         else (s, [])
  {
    hide CheckCommitted, Matching;
  }

  lemma KeepsAssignments(s: NodeState, c: ReplicaConfig, k: Slot, d: Digest)
    ensures CheckCommitted(s, c, k, d).prePrepares == s.prePrepares && CheckCommitted(s, c, k, d).seqNum == s.seqNum
  {
    hide Matching;
  }

  lemma NothingToCheck(total: nat, s: NodeState, k: Slot)
    requires total > 0 && k in s.prePrepares && !ChecksIn(total, s, k, s.prePrepares[k].digest)
    requires k in s.prepared ==> Triggered(total, s, k)
    ensures Triggered(total, s, k)
  {
    hide Matching;
  }

  /** `check_prepared` leaves no trigger behind, and what it sends is a COMMIT for the assignment. */
  lemma CheckPreparedLive(l: Lead, total: nat, pool: set<Message>, done: set<Step>, i: nat, s: NodeState, k: Slot)
    requires total > 0 && k in s.prePrepares && k.view == l.view && Backed(l, pool, i, s) && StoresAll(done, i, s)
    requires forall j | j in s.prePrepares && j != k :: Triggered(total, s, j)
    requires k in s.prepared ==> Triggered(total, s, k)
    ensures var r := CheckPrepared(s, Config(i, total), k, s.prePrepares[k].digest);
            && NodeLive(l, total, pool + (set m | m in r.1), done, i, r.0)
            && (forall m | m in r.1 :: m == CommitVote(i, k, s.prePrepares[k].digest))
            && r.0.prePrepares == s.prePrepares && r.0.seqNum == s.seqNum
  {
    hide StoresAll, NodeLive, CheckPrepared, CheckCommitted, ChecksIn, Triggered;
    var d := s.prePrepares[k].digest;
    BackedView(l, pool, i, s);
    hide Backed;
    CheckPreparedBranches(total, s, i, k, d);
    if ChecksIn(total, s, k, d) {
      PreparedLive(l, total, pool, done, i, s, k);
      KeepsAssignments(Prepared(s, i, k, d), Config(i, total), k, d);
      assert (set m | m in [CommitVote(i, k, d)]) == {CommitVote(i, k, d)};
    } else {
      NothingSent(pool);
      NothingToCheck(total, s, k);
      AlertAll(l, total, pool, done, i, s);
    }
  }

  /** A slot's trigger depends on that slot alone. */
  lemma OthersStayTriggered(total: nat, s: NodeState, s1: NodeState, k: Slot)
    requires total > 0 && forall j | j in s.prePrepares && j != k :: Triggered(total, s, j)
    requires s1.prePrepares.Keys <= s.prePrepares.Keys + {k}
    requires forall j | j != k :: SameSlot(s, s1, j)
    ensures forall j | j in s1.prePrepares && j != k :: Triggered(total, s1, j)
  {
    forall j | j in s1.prePrepares && j != k ensures Triggered(total, s1, j) {
      assert SameSlot(s, s1, j) && Triggered(total, s, j);
    }
  }

  ghost predicate SameSlot(s: NodeState, s1: NodeState, j: Slot) {
    && (j in s1.prePrepares ==> j in s.prePrepares && s1.prePrepares[j] == s.prePrepares[j])
    && VotesAt(s1.prepares, j) == VotesAt(s.prepares, j) && VotesAt(s1.commits, j) == VotesAt(s.commits, j)
    && (j in s1.prepared <==> j in s.prepared) && (j in s1.committed <==> j in s.committed)
  }

  lemma PreparedKeepsBacked(l: Lead, pool: set<Message>, done: set<Step>, i: nat, s: NodeState, k: Slot)
    requires Backed(l, pool, i, s) && StoresAll(done, i, s) && k in s.prePrepares
    requires CommitVote(i, k, s.prePrepares[k].digest) in pool
    ensures var s1 := Prepared(s, i, k, s.prePrepares[k].digest);
            Backed(l, pool, i, s1) && StoresAll(done, i, s1)
  {
    var s1 := Prepared(s, i, k, s.prePrepares[k].digest);
    forall j | j in s1.prepared ensures HasVoted(pool, i, s1, j, s.prePrepares[j].digest) {
      assert j != k ==> HasVoted(pool, i, s, j, s.prePrepares[j].digest);
    }
    if i != l.primary {
      forall j | j in s1.prePrepares ensures HasPrepared(pool, i, s1, j, s.prePrepares[j].digest) {
        assert HasPrepared(pool, i, s, j, s.prePrepares[j].digest);
      }
    }
    forall m | Deliver(i, m) in done ensures Stores(s1, m) {
      assert Stores(s, m);
    }
  }

  // ----- Deliveries -----

  /** What handling one delivery must establish. */
  ghost predicate Handles(l: Lead, total: nat, pool: set<Message>, done: set<Step>, i: nat, s: NodeState, m: Message,
                          r: (NodeState, seq<Message>))
    requires total > 0
  {
    && NodeLive(l, total, pool + (set x | x in r.1), done + {Deliver(i, m)}, i, r.0)
    && (forall x | x in r.1 :: x.sender == i && !x.PrePrepare? && PrePrepare(l.primary, x.slot, x.digest) in pool)
    && (i == l.primary ==> r.0.prePrepares == s.prePrepares && r.0.seqNum == s.seqNum)
  }

  lemma AlreadyStored(l: Lead, total: nat, pool: set<Message>, done: set<Step>, i: nat, s: NodeState, m: Message)
    requires total > 0 && NodeLive(l, total, pool, done, i, s) && Stores(s, m)
    ensures NodeLive(l, total, pool, done + {Deliver(i, m)}, i, s)
  {
    forall x | Deliver(i, x) in done + {Deliver(i, m)} ensures Stores(s, x) {
      assert x != m ==> Deliver(i, x) in done;
    }
  }

  lemma FirstPrePrepareLive(l: Lead, total: nat, pool: set<Message>, done: set<Step>, i: nat, s: NodeState, m: Message)
    requires total > 0 && NodeLive(l, total, pool, done, i, s) && m.PrePrepare? && m in pool && i != l.primary
    requires m == PrePrepare(l.primary, m.slot, m.digest) && m.slot.view == l.view && m.slot !in s.prePrepares
    ensures var prepare := Prepare(i, m.slot, m.digest);
            var s1 := s.(prePrepares := s.prePrepares[m.slot := m],
                prepares := AddVote(s.prepares, m.slot, Vote(i, m.digest)));
            var r := CheckPrepared(s1, Config(i, total), m.slot, m.digest);
            && s.view == l.view
            && NodeLive(l, total, pool + {prepare} + (set x | x in r.1), done + {Deliver(i, m)}, i, r.0)
            && forall x | x in r.1 :: x == CommitVote(i, m.slot, m.digest)
  {
    hide Triggered, CheckPrepared, StoresAll;
    var k, d := m.slot, m.digest;
    var s1 := s.(prePrepares := s.prePrepares[k := m], prepares := AddVote(s.prepares, k, Vote(i, d)));
    assert s.view == l.view;
    OthersStayTriggered(total, s, s1, k);
    BackedGrows(l, pool, pool + {Prepare(i, k, d)}, i, s);
    hide Backed, NodeLive, Alert;
    AssignKeepsBacked(l, pool + {Prepare(i, k, d)}, done, i, s, s1, m);
    CheckPreparedLive(l, total, pool + {Prepare(i, k, d)}, done + {Deliver(i, m)}, i, s1, k);
  }

  lemma PrePrepareLive(l: Lead, total: nat, pool: set<Message>, done: set<Step>, i: nat, s: NodeState, m: Message)
    requires total > 0 && NodeLive(l, total, pool, done, i, s)
    requires m.PrePrepare? && m in pool && m == PrePrepare(l.primary, m.slot, m.digest) && m.slot.view == l.view
    requires i != l.primary
    ensures Handles(l, total, pool, done, i, s, m, HandlePrePrepare(s, Config(i, total), m))
  {
    hide NodeLive, CheckPrepared;
    var r := HandlePrePrepare(s, Config(i, total), m);
    if m.slot in s.prePrepares {
      NothingSent(pool);
      AlreadyStored(l, total, pool, done, i, s, m);
    } else {
      FirstPrePrepareLive(l, total, pool, done, i, s, m);
      var s1 := s.(prePrepares := s.prePrepares[m.slot := m],
          prepares := AddVote(s.prepares, m.slot, Vote(i, m.digest)));
      var more := CheckPrepared(s1, Config(i, total), m.slot, m.digest);
      var prepare := Prepare(i, m.slot, m.digest);
      assert r == (more.0, [prepare] + more.1);
      assert pool + (set x | x in r.1) == pool + {prepare} + (set x | x in more.1);
    }
  }

  lemma AssignKeepsBacked(l: Lead, pool: set<Message>, done: set<Step>, i: nat, s: NodeState, s1: NodeState, m: Message)
    requires Backed(l, pool, i, s) && StoresAll(done, i, s)
    requires m == PrePrepare(l.primary, m.slot, m.digest) && m.slot !in s.prePrepares && i != l.primary
    requires m in pool && Prepare(i, m.slot, m.digest) in pool
    requires s1 == s.(prePrepares := s.prePrepares[m.slot := m],
                      prepares := AddVote(s.prepares, m.slot, Vote(i, m.digest)))
    ensures Backed(l, pool, i, s1) && StoresAll(done + {Deliver(i, m)}, i, s1) && m.slot !in s1.prepared
  {
    forall k | k in s1.prePrepares
      ensures HasPrepared(pool, i, s1, k, s1.prePrepares[k].digest) && IsAssigned(l, pool, k, s1.prePrepares[k])
    {
      assert k != m.slot ==>
          HasPrepared(pool, i, s, k, s.prePrepares[k].digest) && IsAssigned(l, pool, k, s.prePrepares[k]);
    }
    forall k | k in s1.prepared ensures HasVoted(pool, i, s1, k, s1.prePrepares[k].digest) {
      assert HasVoted(pool, i, s, k, s.prePrepares[k].digest);
    }
    forall x | Deliver(i, x) in done + {Deliver(i, m)} ensures Stores(s1, x) {
      assert x == m || Stores(s, x);
    }
  }

  lemma PrepareLive(l: Lead, total: nat, pool: set<Message>, done: set<Step>, i: nat, s: NodeState, m: Message)
    requires total > 0 && NodeLive(l, total, pool, done, i, s)
    requires m.Prepare? && m.slot.view == l.view && PrePrepare(l.primary, m.slot, m.digest) in pool
    ensures Handles(l, total, pool, done, i, s, m, HandlePrepare(s, Config(i, total), m))
  {
    var k, done' := m.slot, done + {Deliver(i, m)};
    var s1 := s.(prepares := AddVote(s.prepares, k, Vote(m.sender, m.digest)));
    PrepareStored(l, total, pool, done, i, s, s1, m);
    var r := HandlePrepare(s, Config(i, total), m);
    hide Backed, StoresAll, Triggered, NodeLive, Alert, CheckPrepared;
    NothingSent(pool);
    if k in s.prePrepares && s.prePrepares[k].digest == m.digest {
      CheckPreparedLive(l, total, pool, done', i, s1, k);
    } else {
      AlertAll(l, total, pool, done', i, s1);
    }
  }

  lemma AlertAll(l: Lead, total: nat, pool: set<Message>, done: set<Step>, i: nat, s: NodeState)
    requires total > 0 && Backed(l, pool, i, s) && StoresAll(done, i, s)
    requires forall k | k in s.prePrepares :: Triggered(total, s, k)
    ensures NodeLive(l, total, pool, done, i, s)
  {
  }

  lemma PrepareStored(l: Lead, total: nat, pool: set<Message>, done: set<Step>, i: nat, s: NodeState, s1: NodeState,
      m: Message)
    requires total > 0 && NodeLive(l, total, pool, done, i, s) && m.Prepare?
    requires PrePrepare(l.primary, m.slot, m.digest) in pool
    requires s1 == s.(prepares := AddVote(s.prepares, m.slot, Vote(m.sender, m.digest)))
    ensures s1.view == l.view && Backed(l, pool, i, s1) && StoresAll(done + {Deliver(i, m)}, i, s1)
    ensures forall k | k in s1.prePrepares :: k != m.slot || k in s1.prepared || s1.prePrepares[k].digest != m.digest
                                             ==> Triggered(total, s1, k)
  {
    if i != l.primary {
      forall k | k in s1.prePrepares ensures HasPrepared(pool, i, s1, k, s1.prePrepares[k].digest) {
        assert HasPrepared(pool, i, s, k, s.prePrepares[k].digest);
      }
    }
    forall k | k in s1.prepared ensures HasVoted(pool, i, s1, k, s1.prePrepares[k].digest) {
      assert HasVoted(pool, i, s, k, s.prePrepares[k].digest);
    }
    forall x | Deliver(i, x) in done + {Deliver(i, m)} ensures Stores(s1, x) {
      assert x == m || Stores(s, x);
    }
    forall k | k in s1.prePrepares && (k != m.slot || k in s1.prepared || s1.prePrepares[k].digest != m.digest)
      ensures Triggered(total, s1, k)
    {
      assert Triggered(total, s, k);
      StaysTriggered(total, s, s1, m, k);
    }
  }

  lemma StaysTriggered(total: nat, s: NodeState, s1: NodeState, m: Message, k: Slot)
    requires total > 0 && m.Prepare? && k in s.prePrepares && Triggered(total, s, k)
    requires s1 == s.(prepares := AddVote(s.prepares, m.slot, Vote(m.sender, m.digest)))
    requires k != m.slot || k in s1.prepared || s1.prePrepares[k].digest != m.digest
    ensures Triggered(total, s1, k)
  {
    assert s1.prePrepares[k].digest != m.digest ==>
      Matching(VotesAt(s1.prepares, k), s.prePrepares[k].digest)
          == Matching(VotesAt(s.prepares, k), s.prePrepares[k].digest);
  }

  lemma CommitLive(l: Lead, total: nat, pool: set<Message>, done: set<Step>, i: nat, s: NodeState, m: Message)
    requires total > 0 && NodeLive(l, total, pool, done, i, s)
    requires m.CommitVote? && m.slot.view == l.view
    ensures Handles(l, total, pool, done, i, s, m, HandleCommit(s, Config(i, total), m))
  {
    var k, done' := m.slot, done + {Deliver(i, m)};
    var s1 := s.(commits := AddVote(s.commits, k, Vote(m.sender, m.digest)));
    CommitStored(l, total, pool, done, i, s, s1, m);
    hide Backed, StoresAll, Triggered, NodeLive, Alert;
    NothingSent(pool);
    if k in s.prePrepares && s.prePrepares[k].digest == m.digest {
      CheckCommittedLive(l, total, pool, done', i, s1, k);
    } else {
      AlertAll(l, total, pool, done', i, s1);
    }
  }

  lemma CommitStored(l: Lead, total: nat, pool: set<Message>, done: set<Step>, i: nat, s: NodeState, s1: NodeState,
      m: Message)
    requires total > 0 && NodeLive(l, total, pool, done, i, s) && m.CommitVote?
    requires s1 == s.(commits := AddVote(s.commits, m.slot, Vote(m.sender, m.digest)))
    ensures s1.view == l.view && Backed(l, pool, i, s1) && StoresAll(done + {Deliver(i, m)}, i, s1)
    ensures forall k | k in s1.prePrepares :: k != m.slot || k !in s1.prepared || s1.prePrepares[k].digest != m.digest
                                             ==> Triggered(total, s1, k)
  {
    if i != l.primary {
      forall k | k in s1.prePrepares ensures HasPrepared(pool, i, s1, k, s1.prePrepares[k].digest) {
        assert HasPrepared(pool, i, s, k, s.prePrepares[k].digest);
      }
    }
    forall k | k in s1.prepared ensures HasVoted(pool, i, s1, k, s1.prePrepares[k].digest) {
      assert HasVoted(pool, i, s, k, s.prePrepares[k].digest);
    }
    forall x | Deliver(i, x) in done + {Deliver(i, m)} ensures Stores(s1, x) {
      assert x == m || Stores(s, x);
    }
    forall k | k in s1.prePrepares && (k != m.slot || k !in s1.prepared || s1.prePrepares[k].digest != m.digest)
      ensures Triggered(total, s1, k)
    {
      assert Triggered(total, s, k);
      StaysTriggeredByCommit(total, s, s1, m, k);
    }
  }

  lemma StaysTriggeredByCommit(total: nat, s: NodeState, s1: NodeState, m: Message, k: Slot)
    requires total > 0 && m.CommitVote? && k in s.prePrepares && Triggered(total, s, k)
    requires s1 == s.(commits := AddVote(s.commits, m.slot, Vote(m.sender, m.digest)))
    requires k != m.slot || k !in s1.prepared || s1.prePrepares[k].digest != m.digest
    ensures Triggered(total, s1, k)
  {
    assert s1.prePrepares[k].digest != m.digest ==>
      Matching(VotesAt(s1.commits, k), s.prePrepares[k].digest)
          == Matching(VotesAt(s.commits, k), s.prePrepares[k].digest);
  }

  // ----- The group -----

  lemma ReceiveLive(l: Lead, g: Group, done: set<Step>, i: nat, m: Message)
    requires i in g.nodes && m in g.pool && i != m.sender && LiveInv(l, g, done)
    ensures Handles(l, g.total, g.pool, done, i, g.nodes[i], m, Receive(g.nodes[i], ConfigOf(g, i), m))
  {
    assert NodeLive(l, g.total, g.pool, done, i, g.nodes[i]);
    assert PrePrepare(l.primary, m.slot, m.digest) in g.pool;
    assert m.slot.view == l.view;
    assert m.PrePrepare? ==> g.nodes[l.primary].prePrepares[m.slot] == m && m.sender == l.primary by {
      assert NodeLive(l, g.total, g.pool, done, l.primary, g.nodes[l.primary]);
      assert m.PrePrepare? ==> IsAssigned(l, g.pool, m.slot, g.nodes[l.primary].prePrepares[m.slot]);
    }
    hide LiveInv, NodeLive, Handles, HandlePrePrepare, HandlePrepare, HandleCommit;
    match m
    case PrePrepare(_, _, _) => PrePrepareLive(l, g.total, g.pool, done, i, g.nodes[i], m);
    case Prepare(_, _, _) => PrepareLive(l, g.total, g.pool, done, i, g.nodes[i], m);
    case CommitVote(_, _, _) => CommitLive(l, g.total, g.pool, done, i, g.nodes[i], m);
  }

  lemma PoolStaysLive(l: Lead, total: nat, pool: set<Message>, i: nat, primary: NodeState, primary': NodeState,
      out: set<Message>)
    requires PoolLive(l, total, pool, primary) && i < total
    requires forall x | x in out :: x.sender == i && !x.PrePrepare? && PrePrepare(l.primary, x.slot, x.digest) in pool
    requires primary'.prePrepares == primary.prePrepares && primary'.seqNum == primary.seqNum
    ensures PoolLive(l, total, pool + out, primary')
  {
  }

  lemma DeliverKeepsLive(l: Lead, g: Group, done: set<Step>, i: nat, m: Message)
    requires i in g.nodes && m in g.pool && i != m.sender && LiveInv(l, g, done)
    ensures LiveInv(l, Put(g, i, Receive(g.nodes[i], ConfigOf(g, i), m)), done + {Deliver(i, m)})
  {
    hide Receive, NodeLive, PoolLive;
    var r := Receive(g.nodes[i], ConfigOf(g, i), m);
    ReceiveLive(l, g, done, i, m);
    var g', done', out := Put(g, i, r), done + {Deliver(i, m)}, set x | x in r.1;
    PoolStaysLive(l, g.total, g.pool, i, g.nodes[l.primary], g'.nodes[l.primary], out);
    forall j | j in g'.nodes ensures NodeLive(l, g'.total, g'.pool, done', j, g'.nodes[j]) {
      if j != i {
        OthersStayLive(l, g.total, g.pool, g'.pool, done, done', j, g.nodes[j]);
      }
    }
    assert g'.nodes.Keys == g.nodes.Keys;
  }

  lemma OthersStayLive(l: Lead, total: nat, pool: set<Message>, pool': set<Message>, done: set<Step>,
      done': set<Step>, j: nat,
      s: NodeState)
    requires total > 0 && pool <= pool' && NodeLive(l, total, pool, done, j, s)
    requires forall m | Deliver(j, m) in done' :: Deliver(j, m) in done
    ensures NodeLive(l, total, pool', done', j, s)
  {
    hide Alert, Stores;
    BackedGrows(l, pool, pool', j, s);
  }

  lemma AssignKeepsPool(l: Lead, total: nat, pool: set<Message>, s: NodeState, m: Message)
    requires total > 0 && l.primary < total && PoolLive(l, total, pool, s)
    requires m == PrePrepare(l.primary, Slot(l.view, s.seqNum + 1), m.digest)
    ensures PoolLive(l, total, pool + {m}, s.(seqNum := s.seqNum + 1, prePrepares := s.prePrepares[m.slot := m]))
  {
  }

  lemma PrimaryStaysBacked(l: Lead, pool: set<Message>, done: set<Step>, s: NodeState, s': NodeState, m: Message)
    requires Backed(l, pool, l.primary, s) && StoresAll(done, l.primary, s)
    requires m == PrePrepare(l.primary, m.slot, m.digest) && m.slot !in s.prePrepares && m in pool
    requires s' == s.(seqNum := s.seqNum + 1, prePrepares := s.prePrepares[m.slot := m])
    ensures Backed(l, pool, l.primary, s') && StoresAll(done, l.primary, s')
  {
    forall j | j in s'.prePrepares ensures IsAssigned(l, pool, j, s'.prePrepares[j]) {
      assert j != m.slot ==> IsAssigned(l, pool, j, s.prePrepares[j]);
    }
    forall j | j in s'.prepared ensures HasVoted(pool, l.primary, s', j, s'.prePrepares[j].digest) {
      assert HasVoted(pool, l.primary, s, j, s.prePrepares[j].digest);
    }
    forall x | Deliver(l.primary, x) in done ensures Stores(s', x) {
      assert Stores(s, x);
    }
  }

  lemma AssignLive(l: Lead, total: nat, pool: set<Message>, done: set<Step>, s: NodeState, d: Digest)
    requires total > 0 && l.primary == l.view % total
    requires PoolLive(l, total, pool, s) && NodeLive(l, total, pool, done, l.primary, s)
    ensures var r := HandleRequest(s, Config(l.primary, total), d);
            && NodeLive(l, total, pool + (set m | m in r.1), done, l.primary, r.0)
            && PoolLive(l, total, pool + (set m | m in r.1), r.0)
  {
    var r := HandleRequest(s, Config(l.primary, total), d);
    var k := Slot(l.view, s.seqNum + 1);
    var m := PrePrepare(l.primary, k, d);
    assert r == (s.(seqNum := s.seqNum + 1, prePrepares := s.prePrepares[k := m]), [m]);
    assert k !in s.prePrepares;
    hide HandleRequest, StoresAll;
    var pool', s' := pool + {m}, r.0;
    assert pool + (set x | x in r.1) == pool';
    AssignKeepsPool(l, total, pool, s, m);
    NoVotesYet(l, total, pool, s, k, d);
    hide PoolLive;
    BackedGrows(l, pool, pool', l.primary, s);
    hide Backed;
    PrimaryStaysBacked(l, pool', done, s, s', m);
    OthersStayTriggered(total, s, s', k);
    assert Triggered(total, s', k);
    hide Triggered;
    AlertAll(l, total, pool', done, l.primary, s');
  }

  /** Nothing has arrived for a slot that is not assigned yet. */
  lemma NoVotesYet(l: Lead, total: nat, pool: set<Message>, s: NodeState, k: Slot, d: Digest)
    requires PoolLive(l, total, pool, s) && Backed(l, pool, l.primary, s) && k !in s.prePrepares
    ensures Matching(VotesAt(s.prepares, k), d) == {} && k !in s.prepared
  {
    assert forall v | v in VotesAt(s.prepares, k) :: PrePrepare(l.primary, k, v.digest) in pool;
  }

  /** Only the primary answers a request. */
  lemma BackupIgnoresRequest(l: Lead, g: Group, i: nat, d: Digest)
    requires i in g.nodes && i < g.total && i != l.primary && g.nodes[i].view == l.view && l.primary == l.view % g.total
    ensures Put(g, i, HandleRequest(g.nodes[i], ConfigOf(g, i), d)) == g
  {
    NothingSent(g.pool);
    assert g.nodes[i := g.nodes[i]] == g.nodes;
  }

  lemma RequestKeepsLive(l: Lead, g: Group, done: set<Step>, i: nat, d: Digest)
    requires i in g.nodes && LiveInv(l, g, done)
    ensures LiveInv(l, Put(g, i, HandleRequest(g.nodes[i], ConfigOf(g, i), d)), done + {Request(i, d)})
  {
    hide HandleRequest, PoolLive, Backed, StoresAll, Alert;
    var r := HandleRequest(g.nodes[i], ConfigOf(g, i), d);
    var g', done' := Put(g, i, r), done + {Request(i, d)};
    assert NodeLive(l, g.total, g.pool, done, i, g.nodes[i]);
    if i == l.primary {
      AssignLive(l, g.total, g.pool, done, g.nodes[l.primary], d);
    } else {
      BackedView(l, g.pool, i, g.nodes[i]);
      BackupIgnoresRequest(l, g, i, d);
    }
    hide NodeLive;
    assert g'.nodes.Keys == g.nodes.Keys;
    forall j | j in g'.nodes ensures NodeLive(l, g'.total, g'.pool, done', j, g'.nodes[j]) {
      if j != i {
        OthersStayLive(l, g.total, g.pool, g'.pool, done, done', j, g.nodes[j]);
      } else {
        OthersStayLive(l, g.total, g'.pool, g'.pool, done, done', j, r.0);
      }
    }
  }

  lemma BackedView(l: Lead, pool: set<Message>, i: nat, s: NodeState)
    requires Backed(l, pool, i, s)
    ensures s.view == l.view
  {
  }

  lemma InitLive(l: Lead, g: Group)
    requires g.total > 0 && IsFresh(l, g) && l.primary == l.view % g.total
    ensures LiveInv(l, g, {})
  {
  }

  lemma StepKeepsLive(l: Lead, g: Group, done: set<Step>, step: Step, g': Group)
    requires IsNormal(step) && Next(g, step, g') && LiveInv(l, g, done)
    ensures LiveInv(l, g', done + {step}) && g'.total == g.total
  {
    hide LiveInv, HandleRequest, Receive;
    match step
    case Request(j, d) => RequestKeepsLive(l, g, done, j, d);
    case Deliver(j, m) => DeliverKeepsLive(l, g, done, j, m);
  }

  lemma {:induction false} RunsKeepLive(l: Lead, run: seq<Group>, steps: seq<Step>, i: nat)
    requires i < |run| && IsFaultFree(l, run, steps)
    ensures LiveInv(l, run[i], Performed(steps[..i])) && run[i].total == run[0].total
    decreases i
  {
    hide LiveInv, Next, IsNormal;
    if i == 0 {
      assert Performed(steps[..0]) == {};
      InitLive(l, run[0]);
    } else {
      RunsKeepLive(l, run, steps, i - 1);
      assert Next(run[i - 1], steps[i - 1], run[i - 1 + 1]) && IsNormal(steps[i - 1]);
      assert steps[..i] == steps[..i - 1] + [steps[i - 1]];
      assert Performed(steps[..i]) == Performed(steps[..i - 1]) + {steps[i - 1]};
      StepKeepsLive(l, run[i - 1], Performed(steps[..i - 1]), steps[i - 1], run[i]);
    }
  }

  // ----- The theorem -----

  /** The votes of a set of replicas for one digest. */
  function VotesOf(ids: set<nat>, d: Digest): set<Vote> {
    set i | i in ids :: Vote(i, d)
  }

  lemma {:induction false} CountVotes(ids: set<nat>, d: Digest)
    ensures |VotesOf(ids, d)| == |ids|
  {
    if ids != {} {
      var i :| i in ids;
      CountVotes(ids - {i}, d);
      assert VotesOf(ids, d) == VotesOf(ids - {i}, d) + {Vote(i, d)};
    }
  }

  lemma QuorumStored(votes: set<Vote>, ids: set<nat>, d: Digest)
    requires forall i | i in ids :: Vote(i, d) in votes
    ensures |Matching(votes, d)| >= |ids|
  {
    CountVotes(ids, d);
    assert Matching(votes, d) == VotesOf(ids, d) + (Matching(votes, d) - VotesOf(ids, d));
  }

  /** Every backup has sent its PREPARE for an assigned slot. */
  lemma BackupsPrepare(l: Lead, g: Group, done: set<Step>, k: Slot, i: nat)
    requires LiveInv(l, g, done) && IsQuiet(g, done) && k in g.nodes[l.primary].prePrepares && i in g.nodes
    requires i != l.primary
    ensures k in g.nodes[i].prePrepares && g.nodes[i].prePrepares[k] == g.nodes[l.primary].prePrepares[k]
    ensures HasPrepared(g.pool, i, g.nodes[i], k, g.nodes[l.primary].prePrepares[k].digest)
  {
    var m, s := g.nodes[l.primary].prePrepares[k], g.nodes[i];
    assert NodeLive(l, g.total, g.pool, done, l.primary, g.nodes[l.primary])
        && NodeLive(l, g.total, g.pool, done, i, s);
    assert IsAssigned(l, g.pool, k, m);
    assert Deliver(i, m) in done;
    assert Stores(s, m);
    assert IsAssigned(l, g.pool, k, s.prePrepares[k]);
    assert HasPrepared(g.pool, i, s, k, s.prePrepares[k].digest);
  }

  /** Every replica has stored every backup's PREPARE. */
  lemma PreparesArrive(l: Lead, g: Group, done: set<Step>, k: Slot, i: nat, j: nat)
    requires LiveInv(l, g, done) && IsQuiet(g, done) && k in g.nodes[l.primary].prePrepares
    requires i in g.nodes && j in g.nodes && j != l.primary
    ensures Vote(j, g.nodes[l.primary].prePrepares[k].digest) in VotesAt(g.nodes[i].prepares, k)
  {
    var d := g.nodes[l.primary].prePrepares[k].digest;
    BackupsPrepare(l, g, done, k, j);
    if j != i {
      assert NodeLive(l, g.total, g.pool, done, i, g.nodes[i]);
      assert Deliver(i, Prepare(j, k, d)) in done;
      assert Stores(g.nodes[i], Prepare(j, k, d));
    }
  }

  /** All backups' PREPAREs suffice when there are at least two replicas. */
  lemma PreparesSuffice(l: Lead, total: nat, pool: set<Message>, i: nat, s: NodeState, k: Slot)
    requires total >= 2 && k in s.prePrepares && Triggered(total, s, k) && Backed(l, pool, i, s)
    requires forall j | j in Ids(total) && j != l.primary :: Vote(j, s.prePrepares[k].digest) in VotesAt(s.prepares, k)
    ensures k in s.prepared && HasVoted(pool, i, s, k, s.prePrepares[k].digest)
  {
    QuorumStored(VotesAt(s.prepares, k), Ids(total) - {l.primary}, s.prePrepares[k].digest);
    assert k in s.prepared;
  }

  lemma AllPrepared(l: Lead, g: Group, done: set<Step>, k: Slot, i: nat)
    requires LiveInv(l, g, done) && IsQuiet(g, done) && g.total >= 2 && k in g.nodes[l.primary].prePrepares
    requires i in g.nodes
    ensures k in g.nodes[i].prepared && HasVoted(g.pool, i, g.nodes[i], k, g.nodes[l.primary].prePrepares[k].digest)
    ensures k in g.nodes[i].prePrepares && g.nodes[i].prePrepares[k] == g.nodes[l.primary].prePrepares[k]
  {
    hide IsQuiet, PoolLive, StoresAll, Backed, Triggered, HasPrepared;
    if i != l.primary {
      BackupsPrepare(l, g, done, k, i);
    }
    assert NodeLive(l, g.total, g.pool, done, i, g.nodes[i]);
    assert g.nodes.Keys == Ids(g.total);
    assert Triggered(g.total, g.nodes[i], k);
    forall j | j in Ids(g.total) && j != l.primary
      ensures Vote(j, g.nodes[l.primary].prePrepares[k].digest) in VotesAt(g.nodes[i].prepares, k)
    {
      PreparesArrive(l, g, done, k, i, j);
    }
    hide LiveInv, NodeLive;
    PreparesSuffice(l, g.total, g.pool, i, g.nodes[i], k);
  }

  /** Every replica has stored every replica's COMMIT. */
  lemma CommitsArrive(l: Lead, g: Group, done: set<Step>, k: Slot, i: nat, j: nat)
    requires LiveInv(l, g, done) && IsQuiet(g, done) && g.total >= 2 && k in g.nodes[l.primary].prePrepares
    requires i in g.nodes && j in g.nodes
    ensures Vote(j, g.nodes[l.primary].prePrepares[k].digest) in VotesAt(g.nodes[i].commits, k)
  {
    var d := g.nodes[l.primary].prePrepares[k].digest;
    AllPrepared(l, g, done, k, j);
    if j != i {
      assert NodeLive(l, g.total, g.pool, done, i, g.nodes[i]);
      assert Deliver(i, CommitVote(j, k, d)) in done;
      assert Stores(g.nodes[i], CommitVote(j, k, d));
    }
  }

  lemma AllCommitted(l: Lead, g: Group, done: set<Step>, k: Slot, i: nat)
    requires LiveInv(l, g, done) && IsQuiet(g, done) && g.total >= 2 && k in g.nodes[l.primary].prePrepares
    requires i in g.nodes
    ensures k in g.nodes[i].committed && k in g.nodes[i].decided
    ensures g.nodes[i].decided[k] == g.nodes[l.primary].prePrepares[k].digest
  {
    hide IsQuiet, PoolLive, StoresAll;
    var s, d := g.nodes[i], g.nodes[l.primary].prePrepares[k].digest;
    assert NodeLive(l, g.total, g.pool, done, i, s);
    AllPrepared(l, g, done, k, i);
    assert g.nodes.Keys == Ids(g.total);
    assert Triggered(g.total, s, k) && Backed(l, g.pool, i, s);
    hide LiveInv, NodeLive, Alert, HasPrepared;
    forall j | j in Ids(g.total) ensures Vote(j, d) in VotesAt(s.commits, k) {
      CommitsArrive(l, g, done, k, i, j);
    }
    QuorumStored(VotesAt(s.commits, k), Ids(g.total), d);
  }

  lemma LiveGroup(l: Lead, g: Group, done: set<Step>, number: int)
    requires LiveInv(l, g, done)
    ensures g.nodes.Keys == Ids(g.total)
    ensures Slot(l.view, number) in g.nodes[l.primary].prePrepares <==> 1 <= number <= g.nodes[l.primary].seqNum
  {
    hide NodeLive;
  }

  /** No lost trigger: in a group of two or more, once every message of a fault-free run has been
      delivered, every number the primary assigned is committed everywhere, with the digest the
      primary assigned, in whatever order the messages came. */
  lemma QuietGroupHasCommitted(l: Lead, run: seq<Group>, steps: seq<Step>, number: int, i: nat)
    requires IsFaultFree(l, run, steps) && run[0].total >= 2 && i < run[0].total
    requires var g := run[|steps|];
             && IsQuiet(g, Performed(steps)) && l.primary in g.nodes
             && 1 <= number <= g.nodes[l.primary].seqNum
    ensures var g, k := run[|steps|], Slot(l.view, number);
            && i in g.nodes && k in g.nodes[i].committed && k in g.nodes[i].decided
            && k in g.nodes[l.primary].prePrepares
            && g.nodes[i].decided[k] == g.nodes[l.primary].prePrepares[k].digest
  {
    hide *;
    var g := LastOf(l, run, steps);
    assert steps[..|steps|] == steps;
    QuietHasCommitted(l, g, Performed(steps), number, i);
  }

  lemma LastOf(l: Lead, run: seq<Group>, steps: seq<Step>) returns (g: Group)
    requires IsFaultFree(l, run, steps)
    ensures |run| == |steps| + 1 && g == run[|steps|] && g.total == run[0].total
    ensures LiveInv(l, g, Performed(steps[..|steps|]))
  {
    RunsKeepLive(l, run, steps, |steps|);
    g := run[|steps|];
  }

  lemma QuietHasCommitted(l: Lead, g: Group, done: set<Step>, number: int, i: nat)
    requires LiveInv(l, g, done) && IsQuiet(g, done) && g.total >= 2 && i < g.total
    requires l.primary in g.nodes && 1 <= number <= g.nodes[l.primary].seqNum
    ensures var k := Slot(l.view, number);
            && i in g.nodes && k in g.nodes[i].committed && k in g.nodes[i].decided
            && k in g.nodes[l.primary].prePrepares
            && g.nodes[i].decided[k] == g.nodes[l.primary].prePrepares[k].digest
  {
    hide LiveInv, IsQuiet;
    LiveGroup(l, g, done, number);
    AllCommitted(l, g, done, Slot(l.view, number), i);
  }

  /** A group of one is the exception: it receives nothing, so it never prepares what it assigns. */
  lemma {:induction false} LoneReplicaNeverCommits(l: Lead, run: seq<Group>, steps: seq<Step>, i: nat)
    requires i < |run| && IsFaultFree(l, run, steps) && run[0].total == 1
    ensures l.primary in run[i].nodes && run[i].nodes[l.primary].prepared == {}
    ensures run[i].nodes[l.primary].committed == {}
    decreases i
  {
    if i > 0 {
      LoneReplicaNeverCommits(l, run, steps, i - 1);
      RunsKeepLive(l, run, steps, i - 1);
      assert Next(run[i - 1], steps[i - 1], run[i - 1 + 1]) && IsNormal(steps[i - 1]);
    }
  }
}
