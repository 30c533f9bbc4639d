/** One PBFT replica in the normal case (pbft/node.py): each handler as a function on the node's
    value together with what it broadcasts, and the class that carries the handlers out in place. */
module PbftNodes {

  datatype Digest = Digest(hex: string)

  /** The (view, sequence number) under which a request is ordered. */
  datatype Slot = Slot(view: int, number: int)

  datatype Vote = Vote(sender: nat, digest: Digest)

  datatype Message =
    | PrePrepare(sender: nat, slot: Slot, digest: Digest)
    | Prepare(sender: nat, slot: Slot, digest: Digest)
    | CommitVote(sender: nat, slot: Slot, digest: Digest)

  /** `voted` and `decided` record, for every slot, the digest for which the node sent its COMMIT and
      the digest on which it passed `check_committed`. No handler reads them. */
  datatype NodeState = NodeState(
    view: int,
    seqNum: int,
    prePrepares: map<Slot, Message>,
    prepares: map<Slot, set<Vote>>,
    commits: map<Slot, set<Vote>>,
    prepared: set<Slot>,
    committed: set<Slot>,
    voted: map<Slot, Digest>,
    decided: map<Slot, Digest>)

  const FRESH_NODE := NodeState(0, 0, map[], map[], map[], {}, {}, map[], map[])

  datatype Config = Config(id: nat, total: nat) {
    function F(): nat
      requires total > 0
    {
      (total - 1) / 3
    }
  }

  type ReplicaConfig = c: Config | c.total > 0 witness Config(0, 1)

  function VotesAt(m: map<Slot, set<Vote>>, k: Slot): set<Vote> {
    if k in m then m[k] else {}
  }

  function AddVote(m: map<Slot, set<Vote>>, k: Slot, v: Vote): map<Slot, set<Vote>> {
    m[k := VotesAt(m, k) + {v}]
  }

  function Matching(votes: set<Vote>, d: Digest): set<Vote> {
    set v | v in votes && v.digest == d
  }

  // ----- Handlers as functions -----

  function HandleRequest(s: NodeState, c: ReplicaConfig, d: Digest): (NodeState, seq<Message>) {
    if c.id != s.view % c.total then (s, [])
    else
      var k := Slot(s.view, s.seqNum + 1);
      var m := PrePrepare(c.id, k, d);
      (s.(seqNum := s.seqNum + 1, prePrepares := s.prePrepares[k := m]), [m])
  }

  function HandlePrePrepare(s: NodeState, c: ReplicaConfig, m: Message): (NodeState, seq<Message>)
    requires m.PrePrepare?
  {
    if m.slot.view != s.view || m.slot in s.prePrepares then (s, [])
    else
      var s1 := s.(prePrepares := s.prePrepares[m.slot := m],
                   prepares := AddVote(s.prepares, m.slot, Vote(c.id, m.digest)));
      var (s2, out) := CheckPrepared(s1, c, m.slot, m.digest);
      (s2, [Prepare(c.id, Slot(s.view, m.slot.number), m.digest)] + out)
  }

  function HandlePrepare(s: NodeState, c: ReplicaConfig, m: Message): (NodeState, seq<Message>)
    requires m.Prepare?
  {
    if m.slot.view != s.view then (s, [])
    else
      var s1 := s.(prepares := AddVote(s.prepares, m.slot, Vote(m.sender, m.digest)));
      if m.slot in s.prePrepares && s.prePrepares[m.slot].digest == m.digest
      then CheckPrepared(s1, c, m.slot, m.digest) else (s1, [])
  }

  function CheckPrepared(s: NodeState, c: ReplicaConfig, k: Slot, d: Digest): (NodeState, seq<Message>) {
    if k in s.prepared || |Matching(VotesAt(s.prepares, k), d)| < 2 * c.F() then (s, [])
    else
      var s1 := s.(prepared := s.prepared + {k}, voted := s.voted[k := d],
                   commits := AddVote(s.commits, k, Vote(c.id, d)));
      (CheckCommitted(s1, c, k, d), [CommitVote(c.id, Slot(s.view, k.number), d)])
  }

  function HandleCommit(s: NodeState, c: ReplicaConfig, m: Message): (NodeState, seq<Message>)
    requires m.CommitVote?
  {
    if m.slot.view != s.view then (s, [])
    else
      var s1 := s.(commits := AddVote(s.commits, m.slot, Vote(m.sender, m.digest)));
      if m.slot in s.prePrepares && s.prePrepares[m.slot].digest == m.digest
      then (CheckCommitted(s1, c, m.slot, m.digest), []) else (s1, [])
  }

  function CheckCommitted(s: NodeState, c: ReplicaConfig, k: Slot, d: Digest): NodeState {
    if k in s.committed || k !in s.prepared || |Matching(VotesAt(s.commits, k), d)| < 2 * c.F() + 1 then s
    else s.(committed := s.committed + {k}, decided := s.decided[k := d])
  }

  function Receive(s: NodeState, c: ReplicaConfig, m: Message): (NodeState, seq<Message>) {
    match m
    case PrePrepare(_, _, _) => HandlePrePrepare(s, c, m)
    case Prepare(_, _, _) => HandlePrepare(s, c, m)
    case CommitVote(_, _, _) => HandleCommit(s, c, m)
  }

  function HandleNewView(s: NodeState, view: int): NodeState {
    s.(view := view)
  }

  // ----- The replica in place -----

  class PbftNode {
    const config: ReplicaConfig
    var view: int
    var seqNum: int
    var prePrepares: map<Slot, Message>
    var prepares: map<Slot, set<Vote>>
    var commits: map<Slot, set<Vote>>
    var preparedPredicate: set<Slot>
    var committedPredicate: set<Slot>
    ghost var voted: map<Slot, Digest>
    ghost var decided: map<Slot, Digest>

    ghost function View(): NodeState
      reads this
    {
      NodeState(view, seqNum, prePrepares, prepares, commits, preparedPredicate, committedPredicate, voted, decided)
    }

    constructor (config: ReplicaConfig)
      ensures this.config == config && View() == FRESH_NODE
    {
      this.config := config;
      view, seqNum := 0, 0;
      prePrepares, prepares, commits := map[], map[], map[];
      preparedPredicate, committedPredicate := {}, {};
      voted, decided := map[], map[];
    }

    method DoHandleRequest(d: Digest) returns (out: seq<Message>)
      modifies this
      ensures (View(), out) == HandleRequest(old(View()), config, d)
      ensures config.id == view % config.total ==>
                && seqNum == old(seqNum) + 1 && out == [PrePrepare(config.id, Slot(view, seqNum), d)]
                && prePrepares == old(prePrepares)[Slot(view, seqNum) := out[0]]
      ensures config.id != view % config.total ==> out == [] && unchanged(`seqNum, `prePrepares)
      ensures unchanged(`view, `prepares, `commits, `preparedPredicate, `committedPredicate)
    {
      if config.id != view % config.total {
        return [];
      }
      seqNum := seqNum + 1;
      var prePrepare := PrePrepare(config.id, Slot(view, seqNum), d);
      prePrepares := prePrepares[Slot(view, seqNum) := prePrepare];
      return [prePrepare];
    }

    method DoHandlePrePrepare(m: Message) returns (out: seq<Message>)
      requires m.PrePrepare?
      modifies this
      ensures (View(), out) == HandlePrePrepare(old(View()), config, m)
      ensures unchanged(`view, `seqNum)
      ensures m.slot.view != view || m.slot in old(prePrepares) ==> View() == old(View()) && out == []
      ensures m.slot.view == view && m.slot !in old(prePrepares) ==>
                && prePrepares == old(prePrepares)[m.slot := m]
                && prepares == old(prepares)[m.slot := old(VotesAt(prepares, m.slot)) + {Vote(config.id, m.digest)}]
                && out == [Prepare(config.id, m.slot, m.digest)]
                          + if preparedPredicate == old(preparedPredicate) then []
                            else [CommitVote(config.id, m.slot, m.digest)]
      ensures m.slot.view == view && m.slot !in old(prePrepares) && m.slot !in old(preparedPredicate) ==>
                (m.slot in preparedPredicate <==>
                    |Matching(prepares[m.slot], m.digest)| >= 2 * ((config.total - 1) / 3))
    {
      if m.slot.view != view {
        return [];
      }
      var key := m.slot;
      if key in prePrepares {
        return [];
      }
      prePrepares := prePrepares[key := m];
      prepares := AddVote(prepares, key, Vote(config.id, m.digest));
      out := [Prepare(config.id, Slot(view, m.slot.number), m.digest)];
      var more := DoCheckPrepared(key, m.digest);
      out := out + more;
    }

    method DoHandlePrepare(m: Message) returns (out: seq<Message>)
      requires m.Prepare?
      modifies this
      ensures (View(), out) == HandlePrepare(old(View()), config, m)
      ensures unchanged(`view, `seqNum, `prePrepares)
      ensures m.slot.view != view ==> View() == old(View()) && out == []
      ensures m.slot.view == view ==>
                prepares == old(prepares)[m.slot := old(VotesAt(prepares, m.slot)) + {Vote(m.sender, m.digest)}]
      ensures out == if preparedPredicate == old(preparedPredicate) then []
                     else [CommitVote(config.id, m.slot, m.digest)]
      ensures m.slot.view == view && m.slot !in old(preparedPredicate) ==>
                (m.slot in preparedPredicate <==>
                    && m.slot in prePrepares && prePrepares[m.slot].digest == m.digest
                    && |Matching(prepares[m.slot], m.digest)| >= 2 * ((config.total - 1) / 3))
    {
      if m.slot.view != view {
        return [];
      }
      var key := m.slot;
      prepares := AddVote(prepares, key, Vote(m.sender, m.digest));
      if key !in prePrepares {
        return [];
      }
      var digest := prePrepares[key].digest;
      if m.digest != digest {
        return [];
      }
      out := DoCheckPrepared(key, digest);
    }

    method DoCheckPrepared(key: Slot, digest: Digest) returns (out: seq<Message>)
      modifies this
      ensures (View(), out) == CheckPrepared(old(View()), config, key, digest)
      ensures preparedPredicate ==
              if |Matching(VotesAt(prepares, key), digest)| >= 2 * ((config.total - 1) / 3)
              then old(preparedPredicate) + {key} else old(preparedPredicate)
      ensures out == if preparedPredicate == old(preparedPredicate) then []
                     else [CommitVote(config.id, Slot(view, key.number), digest)]
      ensures out != [] ==> commits == old(commits)[key := old(VotesAt(commits, key)) + {Vote(config.id, digest)}]
      ensures out == [] ==> View() == old(View())
      ensures unchanged(`view, `seqNum, `prePrepares, `prepares)
    {
      if key in preparedPredicate {
        return [];
      }
      var matchingPrepares := set p | p in VotesAt(prepares, key) && p.digest == digest;
      assert matchingPrepares == Matching(VotesAt(prepares, key), digest);
      if |matchingPrepares| >= 2 * config.F() {
        preparedPredicate := preparedPredicate + {key};
        voted := voted[key := digest];
        commits := AddVote(commits, key, Vote(config.id, digest));
        out := [CommitVote(config.id, Slot(view, key.number), digest)];
        DoCheckCommitted(key, digest);
      } else {
        out := [];
      }
    }

    method DoHandleCommit(m: Message) returns (out: seq<Message>)
      requires m.CommitVote?
      modifies this
      ensures (View(), out) == HandleCommit(old(View()), config, m)
      ensures out == [] && unchanged(`view, `seqNum, `prePrepares, `prepares, `preparedPredicate)
      ensures m.slot.view != view ==> View() == old(View())
      ensures m.slot.view == view ==>
                commits == old(commits)[m.slot := old(VotesAt(commits, m.slot)) + {Vote(m.sender, m.digest)}]
      ensures m.slot.view == view && m.slot !in old(committedPredicate) ==>
                (m.slot in committedPredicate <==>
                    && m.slot in prePrepares && prePrepares[m.slot].digest == m.digest
                    && m.slot in preparedPredicate
                    && |Matching(commits[m.slot], m.digest)| >= 2 * ((config.total - 1) / 3) + 1)
    {
      out := [];
      if m.slot.view != view {
        return;
      }
      var key := m.slot;
      commits := AddVote(commits, key, Vote(m.sender, m.digest));
      if key !in prePrepares {
        return;
      }
      var digest := prePrepares[key].digest;
      if m.digest != digest {
        return;
      }
      DoCheckCommitted(key, digest);
    }

    method DoCheckCommitted(key: Slot, digest: Digest)
      modifies this
      ensures View() == CheckCommitted(old(View()), config, key, digest)
      ensures committedPredicate ==
              if key in preparedPredicate
                 && |Matching(VotesAt(commits, key), digest)| >= 2 * ((config.total - 1) / 3) + 1
              then old(committedPredicate) + {key} else old(committedPredicate)
      ensures unchanged(`view, `seqNum, `prePrepares, `prepares, `commits, `preparedPredicate)
    {
      if key in committedPredicate {
        return;
      }
      if key !in preparedPredicate {
        return;
      }
      var matchingCommits := set c | c in VotesAt(commits, key) && c.digest == digest;
      assert matchingCommits == Matching(VotesAt(commits, key), digest);
      if |matchingCommits| >= 2 * config.F() + 1 {
        committedPredicate := committedPredicate + {key};
        decided := decided[key := digest];
      }
    }

    method DoHandleNewView(newView: int)
      modifies this`view
      ensures View() == HandleNewView(old(View()), newView) && view == newView
    {
      view := newView;
    }
  }
}
