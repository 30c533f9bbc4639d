/** What Raft's handlers achieve when messages do arrive: a candidate with a fresh log wins, a lagging
    follower is found and repaired, and what a majority holds is committed and applied. */
module RaftProgress {
  import opened Wrappers
  import opened RaftLogs
  import opened RaftNodes
  import RaftCluster
  import opened RaftCompaction
  import opened RaftSafety
  import RaftInvariants

  // ----- Refusals -----

  /** The reply to an AppendEntries of `count` entries after `prevIndex` that a follower refused. */
  datatype Refusal = Refusal(prevIndex: nat, count: nat, term: nat)

  /** A node after a sequence of refusals from one peer. */
  function Refused(s: NodeState, c: Config, peer: Id, refusals: seq<Refusal>): (s': NodeState)
    requires s.log.lastIncludedIndex <= s.lastApplied
    ensures s'.log == s.log && s'.lastApplied == s.lastApplied
  {
    if refusals == [] then s
    else
      var last := refusals[|refusals| - 1];
      OnAppendReply(Refused(s, c, peer, refusals[..|refusals| - 1]), c, peer, last.prevIndex, last.count, last.term,
                    false, 0)
  }

  /** k refusals in the leader's term take a next index n to the greater of 1 and n - k, and change nothing
      else: no other peer's index, not the log, not the commit index. */
  lemma {:induction false} RefusalsLowerNext(s: NodeState, c: Config, peer: Id, refusals: seq<Refusal>)
    requires s.log.lastIncludedIndex <= s.lastApplied && s.role == Leader
    requires peer in s.nextIndex && s.nextIndex[peer] >= 1
    requires forall r | r in refusals :: r.term <= s.currentTerm
    ensures var n, k := s.nextIndex[peer], |refusals|;
            Refused(s, c, peer, refusals) == s.(nextIndex := s.nextIndex[peer := if n - k > 1 then n - k else 1])
  {
    if refusals == [] {
      assert s.nextIndex[peer := s.nextIndex[peer]] == s.nextIndex;
    } else {
      RefusalsLowerNext(s, c, peer, refusals[..|refusals| - 1]);
    }
  }

  /** So within n - 1 refusals a leader that never compacted ships its whole log from the beginning, and
      every follower of its term or an earlier one accepts that, whatever its log. */
  lemma RefusalsEndAtTheBeginning(s: NodeState, c: Config, peer: Id, refusals: seq<Refusal>, f: NodeState,
      interval: nat)
    requires s.log.lastIncludedIndex == 0 && s.role == Leader
    requires peer in s.nextIndex && 1 <= s.nextIndex[peer] <= |refusals| + 1
    requires forall r | r in refusals :: r.term <= s.currentTerm
    requires f.log.lastIncludedIndex <= f.lastApplied && f.currentTerm <= s.currentTerm
    ensures var request := AppendRequestOf(Refused(s, c, peer, refusals), c, peer);
            && request == Some(AppendRequest(s.currentTerm, c.me, 0, 0, s.log.entries, s.commitIndex))
            && HandleAppendEntries(f, request.value, interval).1
  {
    RefusalsLowerNext(s, c, peer, refusals);
  }

  // ----- Repair -----

  /** The logs of two nodes as log matching leaves them: an entry of one term at one index means one log up
      to there. */
  ghost predicate Match(a: seq<Entry>, b: seq<Entry>) {
    forall i | 0 <= i < |a| && i < |b| && a[i].term == b[i].term :: a[..i + 1] == b[..i + 1]
  }

  ghost predicate Agree(a: seq<Entry>, b: seq<Entry>, n: nat) {
    n <= |a| && n <= |b| && a[..n] == b[..n]
  }

  datatype Pair = Pair(leader: NodeState, follower: NodeState)

  /** One AppendEntries call of the leader to the peer, with its reply unless it was accepted. */
  function Call(w: Pair, c: Config, peer: Id, interval: nat): (Pair, bool)
    requires w.leader.log.lastIncludedIndex <= w.leader.lastApplied
    requires w.follower.log.lastIncludedIndex <= w.follower.lastApplied
  {
    match AppendRequestOf(w.leader, c, peer)
    case None => (w, false)
    case Some(r) =>
      var (f, ok) := HandleAppendEntries(w.follower, r, interval);
      (Pair(if ok then w.leader
            else OnAppendReply(w.leader, c, peer, r.prevIndex, |r.entries|, f.currentTerm, false, 0), f), ok)
  }

  /** A leader, and a follower of its term or an earlier one; neither has compacted, and their logs match. */
  ghost predicate CanRepair(w: Pair, peer: Id) {
    && w.leader.role == Leader && w.follower.currentTerm <= w.leader.currentTerm
    && w.leader.log == Whole(w.leader.log.entries) && w.follower.log == Whole(w.follower.log.entries)
    && Match(w.leader.log.entries, w.follower.log.entries)
    && peer in w.leader.nextIndex && 1 <= w.leader.nextIndex[peer] <= |w.leader.log.entries| + 1
  }

  /** The follower's whole log, of which it stores the end, begins with the leader's log. */
  ghost predicate IsRepaired(leader: seq<Entry>, follower: LogState) {
    exists full :: leader <= full && follower.Represents(full)
  }

  lemma MatchDecides(a: seq<Entry>, b: seq<Entry>, n: nat)
    requires Match(a, b) && n <= |a|
    ensures Agree(a, b, n) <==> n == 0 || (n <= |b| && a[n - 1].term == b[n - 1].term)
  {
    if 0 < n <= |b| {
      assert a[..n] == b[..n] ==> a[..n][n - 1] == b[..n][n - 1];
      assert n - 1 + 1 == n;
    }
  }

  lemma {:induction false} ApplyKeepsRepresenting(s: NodeState, full: seq<Entry>, interval: nat)
    requires s.log.Represents(full) && s.log.lastIncludedIndex <= s.lastApplied && s.commitIndex <= s.log.Length()
    ensures var s' := ApplyCommitted(s, interval);
            && s'.log.Represents(full) && s'.currentTerm == s.currentTerm
            && s'.lastApplied >= s.commitIndex && s'.log.lastIncludedIndex <= s'.lastApplied
    decreases s.commitIndex - s.lastApplied
  {
    if s.lastApplied < s.commitIndex {
      NextKeepsRepresenting(s, full, interval);
      hide CheckSnapshot, LogState.Represents;
      ApplyKeepsRepresenting(CheckSnapshot(ApplyNext(s), interval), full, interval);
    }
  }

  lemma NextKeepsRepresenting(s: NodeState, full: seq<Entry>, interval: nat)
    requires s.log.Represents(full) && s.log.lastIncludedIndex <= s.lastApplied < s.commitIndex <= s.log.Length()
    ensures var s1 := CheckSnapshot(ApplyNext(s), interval);
            && s1.log.Represents(full) && s1.log.Length() == s.log.Length() && s1.currentTerm == s.currentTerm
            && s1.lastApplied == s.lastApplied + 1 && s1.commitIndex == s.commitIndex
            && s1.log.lastIncludedIndex <= s1.lastApplied
  {
    RepresentedTerm(s.log, full, s.lastApplied + 1);
    CompactKeepsRepresenting(s.log, full, s.lastApplied + 1);
  }

  /** A suffix merged after a common beginning: the merged log begins with the shipper's. */
  lemma {:induction false} MergeFollows(a: seq<Entry>, b: seq<Entry>, n: nat)
    requires Match(a, b) && Agree(a, b, n)
    ensures var m := MergeEntries(Whole(b), n, a[n..]); m == Whole(m.entries) && a <= m.entries
    decreases |a| - n
  {
    if n < |a| {
      var e := a[n];
      assert a[n..][0] == e && a[n..][1..] == a[n + 1..];
      var w := MergeEntry(Whole(b), n + 1, e);
      if n < |b| && b[n].term == e.term {
        assert w == Whole(b) && a[..n + 1] == b[..n + 1];
        MergeFollows(a, b, n + 1);
      } else {
        assert w == Whole(b[..n] + [e]);
        AppendAll(b[..n] + [e], a[n + 1..]);
        assert b[..n] + [e] + a[n + 1..] == a;
      }
    }
  }

  /** A call is accepted exactly when the logs agree up to the previous entry; then the follower is repaired,
      and otherwise the next index goes down by one. */
  lemma CallOutcome(w: Pair, c: Config, peer: Id, interval: nat)
    requires CanRepair(w, peer)
    ensures var n := w.leader.nextIndex[peer];
            var (w', ok) := Call(w, c, peer, interval);
            && (ok <==> Agree(w.leader.log.entries, w.follower.log.entries, n - 1))
            && w'.follower.currentTerm == w.leader.currentTerm
            && (ok ==> w'.leader == w.leader && IsRepaired(w.leader.log.entries, w'.follower.log))
            && (!ok ==> n > 1 && CanRepair(w', peer) && w'.follower.log == w.follower.log
                        && w'.leader == w.leader.(nextIndex := w.leader.nextIndex[peer := n - 1]))
  {
    if Agree(w.leader.log.entries, w.follower.log.entries, w.leader.nextIndex[peer] - 1) {
      AgreedCall(w, c, peer, interval);
    } else {
      DisagreedCall(w, c, peer, interval);
      hide Call;
    }
  }

  lemma AgreedCall(w: Pair, c: Config, peer: Id, interval: nat)
    requires CanRepair(w, peer)
    requires Agree(w.leader.log.entries, w.follower.log.entries, w.leader.nextIndex[peer] - 1)
    ensures var (w', ok) := Call(w, c, peer, interval);
            && ok && w'.leader == w.leader && w'.follower.currentTerm == w.leader.currentTerm
            && IsRepaired(w.leader.log.entries, w'.follower.log)
  {
    CallShips(w.leader, c, peer);
    AcceptedRepairs(w, AppendRequestOf(w.leader, c, peer).value, interval);
    hide HandleAppendEntries, Match, IsRepaired;
  }

  lemma DisagreedCall(w: Pair, c: Config, peer: Id, interval: nat)
    requires CanRepair(w, peer)
    requires !Agree(w.leader.log.entries, w.follower.log.entries, w.leader.nextIndex[peer] - 1)
    ensures var n, f := w.leader.nextIndex[peer], w.follower;
            var f' := if w.leader.currentTerm > f.currentTerm then UpdateTerm(f, w.leader.currentTerm) else f;
            && n > 1 && f'.currentTerm == w.leader.currentTerm && f'.log == f.log
            && Call(w, c, peer, interval)
               == (Pair(w.leader.(nextIndex := w.leader.nextIndex[peer := n - 1]), f'), false)
  {
    var s, f, n := w.leader, w.follower, w.leader.nextIndex[peer];
    CallShips(s, c, peer);
    MatchDecides(s.log.entries, f.log.entries, n - 1);
    hide AppendRequestOf, MergeEntries, ApplyCommitted, Match;
    var r := AppendRequestOf(s, c, peer).value;
    assert !f.log.Matches(r.prevIndex, r.prevTerm);
  }

  lemma CallShips(s: NodeState, c: Config, peer: Id)
    requires s.role == Leader && s.log == Whole(s.log.entries)
    requires peer in s.nextIndex && 1 <= s.nextIndex[peer] <= |s.log.entries| + 1
    ensures var n := s.nextIndex[peer];
            AppendRequestOf(s, c, peer) == Some(AppendRequest(s.currentTerm, c.me, n - 1, TermOf(s.log.entries, n - 1),
                                                              s.log.entries[n - 1..], s.commitIndex))
  {
  }

  lemma AcceptedRepairs(w: Pair, r: AppendRequest, interval: nat)
    requires w.leader.log == Whole(w.leader.log.entries) && w.follower.log == Whole(w.follower.log.entries)
    requires Match(w.leader.log.entries, w.follower.log.entries)
    requires r.term == w.leader.currentTerm >= w.follower.currentTerm
    requires Agree(w.leader.log.entries, w.follower.log.entries, r.prevIndex)
    requires r.prevIndex > 0 ==> r.prevTerm == w.leader.log.entries[r.prevIndex - 1].term
    requires r.entries == w.leader.log.entries[r.prevIndex..]
    ensures var (f, ok) := HandleAppendEntries(w.follower, r, interval);
            ok && f.currentTerm == r.term && IsRepaired(w.leader.log.entries, f.log)
  {
    var s, f := w.leader.log.entries, w.follower;
    MatchDecides(s, f.log.entries, r.prevIndex);
    MergeFollows(s, f.log.entries, r.prevIndex);
    hide MergeEntries, Match;
    var full := MergeEntries(f.log, r.prevIndex, r.entries).entries;
    assert f.log.Matches(r.prevIndex, r.prevTerm);
    assert MergeEntries(f.log, r.prevIndex, r.entries).Represents(full);
    hide LogState.Matches;
    var s1 := if r.term > f.currentTerm then UpdateTerm(f, r.term) else f;
    var s2 := s1.(log := MergeEntries(f.log, r.prevIndex, r.entries));
    if r.leaderCommit > s2.commitIndex {
      ApplyKeepsRepresenting(s2.(commitIndex := Min(r.leaderCommit, s2.log.Length())), full, interval);
    }
  }

  /** A sequence of calls, all refused but the last. */
  ghost predicate AreCalls(states: seq<Pair>, c: Config, peer: Id, interval: nat) {
    |states| >= 2 && forall i | 0 <= i < |states| - 1 ::
        IsCall(states[i], states[i + 1], i == |states| - 2, c, peer, interval)
  }

  ghost predicate IsCall(w: Pair, w': Pair, ok: bool, c: Config, peer: Id, interval: nat) {
    && w.leader.log.lastIncludedIndex <= w.leader.lastApplied
    && w.follower.log.lastIncludedIndex <= w.follower.lastApplied
    && Call(w, c, peer, interval) == (w', ok)
  }

  /** A lagging follower is found and repaired. The leader's calls are refused until the previous entry is the
      last one below the next index n up to which the logs agree; the call after that, the n-th at the latest,
      is accepted, and the follower's log then begins with the leader's. */
  lemma {:induction false} LaggingFollowerIsRepaired(w: Pair, c: Config, peer: Id, interval: nat)
      returns (states: seq<Pair>)
    requires CanRepair(w, peer)
    ensures AreCalls(states, c, peer, interval) && states[0] == w
    ensures var a, b, n, k := w.leader.log.entries, w.follower.log.entries, w.leader.nextIndex[peer], |states| - 1;
            k <= n && Agree(a, b, n - k) && forall m | n - k < m < n :: !Agree(a, b, m)
    ensures IsRepaired(w.leader.log.entries, states[|states| - 1].follower.log)
    decreases w.leader.nextIndex[peer]
  {
    hide Call, IsRepaired;
    var (w', ok) := Call(w, c, peer, interval);
    CallOutcome(w, c, peer, interval);
    if ok {
      states := [w, w'];
    } else {
      var rest := LaggingFollowerIsRepaired(w', c, peer, interval);
      states := [w] + rest;
      forall i | 0 <= i < |states| - 1
        ensures IsCall(states[i], states[i + 1], i == |states| - 2, c, peer, interval)
      {
        assert i > 0 ==> IsCall(rest[i - 1], rest[i - 1 + 1], i - 1 == |rest| - 2, c, peer, interval);
      }
    }
  }

  /** In every run the hypotheses hold between a leader and any other node of its term or an earlier one, as
      soon as the leader keeps an index for it, which it does from its election on. */
  lemma LeadersCanRepair(run: seq<RaftCluster.Cluster>, steps: seq<RaftCluster.Step>, i: nat, p: Id, q: Id)
    requires RaftCluster.IsRun(run, steps) && i < |run| && p in run[i].nodes && q in run[i].nodes && p != q
    requires run[i].nodes[p].role == Leader && run[i].nodes[q].currentTerm <= run[i].nodes[p].currentTerm
    requires q in run[i].nodes[p].nextIndex
    ensures CanRepair(Pair(run[i].nodes[p], run[i].nodes[q]), q)
  {
    hide RaftCluster.IsRun, RaftInvariants.Inv;
    RunsKeepInv(run, steps, i);
    IsWhole(run[i], p);
    IsWhole(run[i], q);
    NextIndexFits(run[i], p);
    LogsOfRunMatch(run, steps, i, p, q);
  }

  lemma IsWhole(g: RaftCluster.Cluster, n: Id)
    requires RaftInvariants.Inv(g) && n in g.nodes
    ensures g.nodes[n].log == Whole(g.nodes[n].log.entries)
  {
    hide RaftInvariants.ElectionsOk, RaftInvariants.GrantsOk, RaftInvariants.AcksOk, RaftInvariants.OutcomesOk,
      RaftInvariants.MessagesOk, RaftInvariants.NodeLogOk, RaftInvariants.VotesOk, RaftInvariants.PeersOk;
    assert RaftInvariants.NodeOk(g.history, g.servers, n, g.nodes[n]);
  }

  lemma NextIndexFits(g: RaftCluster.Cluster, n: Id)
    requires RaftInvariants.Inv(g) && n in g.nodes && g.nodes[n].role == Leader
    ensures forall p | p in g.nodes[n].nextIndex :: 1 <= g.nodes[n].nextIndex[p] <= |g.nodes[n].log.entries| + 1
  {
    hide RaftInvariants.ElectionsOk, RaftInvariants.GrantsOk, RaftInvariants.AcksOk, RaftInvariants.OutcomesOk,
      RaftInvariants.MessagesOk, RaftInvariants.NodeLogOk, RaftInvariants.VotesOk;
    assert RaftInvariants.NodeOk(g.history, g.servers, n, g.nodes[n]);
  }

  lemma LogsOfRunMatch(run: seq<RaftCluster.Cluster>, steps: seq<RaftCluster.Step>, i: nat, p: Id, q: Id)
    requires RaftCluster.IsRun(run, steps) && i < |run| && p in run[i].nodes && q in run[i].nodes
    requires run[i].nodes[p].log == Whole(run[i].nodes[p].log.entries)
    requires run[i].nodes[q].log == Whole(run[i].nodes[q].log.entries)
    ensures Match(run[i].nodes[p].log.entries, run[i].nodes[q].log.entries)
  {
    hide RaftCluster.IsRun;
    var a, b := run[i].nodes[p], run[i].nodes[q];
    forall k | 0 <= k < |a.log.entries| && k < |b.log.entries| && a.log.entries[k].term == b.log.entries[k].term
      ensures a.log.entries[..k + 1] == b.log.entries[..k + 1]
    {
      assert a.log.Holds(k + 1) && b.log.Holds(k + 1) && a.log.At(k + 1) == a.log.entries[k];
      LogsMatch(run, steps, i, i, p, q, k + 1);
    }
  }

  // ----- Commit -----

  /** How many nodes, the leader among them, hold at least n entries as far as the leader knows. */
  ghost function Holders(s: NodeState, n: nat): nat {
    |set p | p in s.matchIndex && s.matchIndex[p] >= n| + if s.log.Length() >= n then 1 else 0
  }

  /** More than half of all nodes hold n entries, the last of which is of the leader's own term. */
  ghost predicate IsCommittable(s: NodeState, c: Config, n: nat) {
    && 0 < n && 2 * Holders(s, n) > |{c.me} + c.peers|
    && s.log.lastIncludedIndex < n <= s.log.Length() && s.log.TermAt(n) == s.currentTerm
  }

  /** A leader's log: its own term's entries come last, and no peer holds more than the leader. */
  ghost predicate IsLeadersLog(s: NodeState) {
    && (forall m, n | s.log.lastIncludedIndex < m <= n <= s.log.Length() && s.log.TermAt(m) == s.currentTerm ::
          s.log.TermAt(n) == s.currentTerm)
    && forall p | p in s.matchIndex :: s.matchIndex[p] <= s.log.Length()
  }

  lemma HoldersAreSupport(s: NodeState, c: Config, n: nat, m: nat)
    requires IsMajorityMatch(s.matchIndex, s.log.Length(), c.Majority(), m)
    ensures 2 * Holders(s, n) > |{c.me} + c.peers| <==> n <= m
  {
    assert Holders(s, n) == Support(s.matchIndex, s.log.Length(), n);
    if n <= m {
      SupportIsAntitone(s.matchIndex, s.log.Length(), n, m);
    } else {
      SupportIsAntitone(s.matchIndex, s.log.Length(), m + 1, n);
    }
  }

  lemma {:induction false} ApplyReaches(s: NodeState, interval: nat)
    requires s.log.lastIncludedIndex <= s.lastApplied && s.commitIndex <= s.log.Length()
    ensures var s' := ApplyCommitted(s, interval);
            && s' == s.(log := s'.log, store := s'.store, snapshot := s'.snapshot, lastApplied := s'.lastApplied)
            && s'.lastApplied == if s.lastApplied < s.commitIndex then s.commitIndex else s.lastApplied
    decreases s.commitIndex - s.lastApplied
  {
    if s.lastApplied < s.commitIndex {
      ApplyReaches(CheckSnapshot(ApplyNext(s), interval), interval);
    }
  }

  /** The index a majority holds, but not the next one, is within the leader's log. */
  lemma MajorityIsHeld(s: NodeState, c: Config, majority: nat)
    requires IsMajorityMatch(s.matchIndex, s.log.Length(), c.Majority(), majority) && IsLeadersLog(s)
    ensures majority <= s.log.Length()
  {
    assert Support(s.matchIndex, s.log.Length(), majority) > 0;
  }

  /** What a majority holds is committed and applied, and nothing else is: after a leader has recorded a
      reply, an index beyond the old commit index is committed iff it or a later one is held by more than half
      of all nodes and of the leader's own term. */
  lemma MajorityCommits(s: NodeState, c: Config, peer: Id, prevIndex: nat, count: nat, replyTerm: nat, majority: nat,
                        n: nat)
    requires s.log.lastIncludedIndex <= s.lastApplied == s.commitIndex
    requires s.role == Leader && replyTerm <= s.currentTerm && count > 0
    requires var s1 := RecordMatch(s, peer, prevIndex + count);
             && IsMajorityMatch(s1.matchIndex, s1.log.Length(), c.Majority(), majority)
             && IsLeadersLog(s1)
    ensures var s1 := s.(matchIndex := s.matchIndex[peer := prevIndex + count]);
            var s' := OnAppendReply(s, c, peer, prevIndex, count, replyTerm, true, majority);
            && (n > s.commitIndex ==> (s'.commitIndex >= n <==> exists m :: m >= n && IsCommittable(s1, c, m)))
            && s'.lastApplied == s'.commitIndex >= s.commitIndex
            && s'.matchIndex == s1.matchIndex && s'.nextIndex == s.nextIndex[peer := prevIndex + count + 1]
            && s'.currentTerm == s.currentTerm && s'.role == Leader
  {
    var s1 := RecordMatch(s, peer, prevIndex + count);
    var s2 := s.(matchIndex := s1.matchIndex);
    MajorityIsHeld(s1, c, majority);
    hide IsMajorityMatch;
    forall m: nat ensures 2 * Holders(s2, m) > |{c.me} + c.peers| <==> m <= majority {
      HoldersAreSupport(s2, c, m, majority);
    }
    hide Holders;
    if s.commitIndex < majority && s.log.TermAt(majority) == s.currentTerm {
      assert IsCommittable(s2, c, majority);
      ApplyReaches(s1.(commitIndex := majority), c.snapshotInterval);
    }
  }

  /** So in every run: whenever a leader records a reply. */
  lemma CommitsByMajority(run: seq<RaftCluster.Cluster>, steps: seq<RaftCluster.Step>, i: nat, n: nat)
    requires RaftCluster.IsRun(run, steps) && i < |steps| && steps[i].DeliverAppendReply? && steps[i].m.AppendReply?
    requires var m := steps[i].m;
             && m.to in run[i].nodes && run[i].nodes[m.to].role == Leader
             && m.success && m.count > 0 && m.replyTerm <= run[i].nodes[m.to].currentTerm
    ensures var m := steps[i].m;
            && m.to in run[i + 1].nodes
            && var s, s' := run[i].nodes[m.to], run[i + 1].nodes[m.to];
               var s1 := s.(matchIndex := s.matchIndex[m.from := m.prevIndex + m.count]);
               n > s.commitIndex ==>
                 (s'.commitIndex >= n <==> exists k :: k >= n && IsCommittable(s1, run[i].ConfigOf(m.to), k))
  {
    hide RaftCluster.IsRun, IsMajorityMatch, IsLeadersLog, RaftInvariants.Inv, RaftCluster.After, RaftCluster.Enabled,
      RaftCluster.RepliesInTerm, OnAppendReply, IsCommittable;
    LengthOfRun(run, steps);
    StepOfRun(run, steps, i);
    RunsKeepInv(run, steps, i);
    var g, m, k := run[i], steps[i].m, steps[i].majorityMatch;
    RecordedInTerm(g, m, k);
    RecordedFits(g, m);
    AppliedAtOnce(run, steps, i, m.to);
    ReplyStep(g, m, k);
    MajorityCommits(g.nodes[m.to], g.ConfigOf(m.to), m.from, m.prevIndex, m.count, m.replyTerm, k, n);
  }

  lemma StepOfRun(run: seq<RaftCluster.Cluster>, steps: seq<RaftCluster.Step>, i: nat)
    requires RaftCluster.IsRun(run, steps) && i < |steps|
    ensures i + 1 < |run| && RaftCluster.Transition(run[i], steps[i], run[i + 1])
  {
  }

  lemma ReplyStep(g: RaftCluster.Cluster, m: RaftCluster.Message, k: nat)
    requires RaftCluster.Enabled(g, RaftCluster.DeliverAppendReply(m, k))
    ensures m.AppendReply? && m.to in g.nodes
    ensures var s, c := g.nodes[m.to], g.ConfigOf(m.to);
            var s1 := RecordMatch(s, m.from, m.prevIndex + m.count);
            && s.log.lastIncludedIndex <= s.lastApplied
            && IsMajorityMatch(s1.matchIndex, s1.log.Length(), c.Majority(), k)
            && m.to in RaftCluster.After(g, RaftCluster.DeliverAppendReply(m, k)).nodes
            && RaftCluster.After(g, RaftCluster.DeliverAppendReply(m, k)).nodes[m.to]
               == OnAppendReply(s, c, m.from, m.prevIndex, m.count, m.replyTerm, m.success, k)
  {
    hide OnAppendReply, IsMajorityMatch;
  }

  /** Committed entries are applied at once: no step of any run leaves a node with one it has not applied. */
  lemma {:induction false} AppliedAtOnce(run: seq<RaftCluster.Cluster>, steps: seq<RaftCluster.Step>, i: nat, n: Id)
    requires RaftCluster.IsRun(run, steps) && i < |run| && n in run[i].nodes
    ensures run[i].nodes[n].log.lastIncludedIndex <= run[i].nodes[n].lastApplied == run[i].nodes[n].commitIndex
    decreases i
  {
    hide RaftCluster.IsRun, RaftInvariants.Inv, RaftCluster.After;
    if i == 0 {
      assert RaftCluster.Init(run[0]) by {
        hide *;
        LengthOfRun(run, steps);
      }
    } else {
      LengthOfRun(run, steps);
      StepOfRun(run, steps, i - 1);
      RunsKeepInv(run, steps, i - 1);
      RunsKeepInv(run, steps, i);
      SameServers(run[i - 1], steps[i - 1]);
      AppliedAtOnce(run, steps, i - 1, n);
      InvStore(run[i], n);
      StepApplies(run[i - 1], steps[i - 1], n);
    }
  }

  lemma LengthOfRun(run: seq<RaftCluster.Cluster>, steps: seq<RaftCluster.Step>)
    requires RaftCluster.IsRun(run, steps)
    ensures |run| == |steps| + 1 && RaftCluster.Init(run[0])
  {
  }

  lemma SameServers(g: RaftCluster.Cluster, step: RaftCluster.Step)
    requires RaftCluster.Enabled(g, step)
    ensures RaftCluster.After(g, step).nodes.Keys == g.nodes.Keys
  {
    hide RaftCluster.RecordApplications, RaftCluster.RecordElection, RaftCluster.RecordGrant;
  }

  lemma StepApplies(g: RaftCluster.Cluster, step: RaftCluster.Step, n: Id)
    requires RaftCluster.Enabled(g, step) && n in g.nodes && n in RaftCluster.After(g, step).nodes
    requires g.nodes[n].lastApplied == g.nodes[n].commitIndex
    ensures RaftCluster.After(g, step).nodes[n].lastApplied >= RaftCluster.After(g, step).nodes[n].commitIndex
  {
    if n == step.Actor() {
      var s, c := g.nodes[n], g.ConfigOf(n);
      match step
      case DeliverAppendCall(m) => HandledApplies(s, m.append, c.snapshotInterval);
      case DeliverAppendReply(m, k) => ReplyApplies(s, c, m.from, m.prevIndex, m.count, m.replyTerm, m.success, k);
      case _ =>
    }
  }

  lemma HandledApplies(s: NodeState, r: AppendRequest, interval: nat)
    requires s.log.lastIncludedIndex <= s.lastApplied == s.commitIndex
    ensures var s' := HandleAppendEntries(s, r, interval).0; s'.lastApplied >= s'.commitIndex
  {
    hide MergeEntries, LogState.Matches;
    var (s', ok) := HandleAppendEntries(s, r, interval);
    if ok && r.leaderCommit > s.commitIndex {
      var s1 := if r.term > s.currentTerm then UpdateTerm(s, r.term) else s;
      var s2 := s1.(log := MergeEntries(s1.log, r.prevIndex, r.entries));
      MergeKeepsSnapshot(s1.log, r.prevIndex, r.entries);
      ApplyReaches(s2.(commitIndex := Min(r.leaderCommit, s2.log.Length())), interval);
    }
  }

  lemma ReplyApplies(s: NodeState, c: Config, peer: Id, prevIndex: nat, count: nat, replyTerm: nat, success: bool,
      k: nat)
    requires s.log.lastIncludedIndex <= s.lastApplied == s.commitIndex
    ensures var s' := OnAppendReply(s, c, peer, prevIndex, count, replyTerm, success, k);
            s'.lastApplied >= s'.commitIndex
  {
    var s1 := RecordMatch(s, peer, prevIndex + count);
    if s.commitIndex < k <= s.log.Length() {
      ApplyReaches(s1.(commitIndex := k), c.snapshotInterval);
    }
  }

  lemma InvStore(g: RaftCluster.Cluster, n: Id)
    requires RaftInvariants.Inv(g) && n in g.nodes
    ensures g.nodes[n].log.lastIncludedIndex <= g.nodes[n].lastApplied <= g.nodes[n].commitIndex
  {
    assert RaftInvariants.NodeOk(g.history, g.servers, n, g.nodes[n]);
  }

  /** A successful reply that is in a leader's term. */
  ghost predicate IsRecorded(g: RaftCluster.Cluster, m: RaftCluster.Message) {
    && m in g.sent && m.AppendReply? && m.success && m.to in g.nodes
    && g.nodes[m.to].role == Leader && m.requestTerm == g.nodes[m.to].currentTerm
  }

  lemma RecordedInTerm(g: RaftCluster.Cluster, m: RaftCluster.Message, k: nat)
    requires RaftCluster.Enabled(g, RaftCluster.DeliverAppendReply(m, k))
    requires RaftCluster.RepliesInTerm(g, RaftCluster.DeliverAppendReply(m, k))
    requires m.AppendReply? && m.to in g.nodes
    requires g.nodes[m.to].role == Leader && m.success && m.count > 0 && m.replyTerm <= g.nodes[m.to].currentTerm
    ensures IsRecorded(g, m)
  {
    hide IsMajorityMatch;
  }

  lemma RecordedFits(g: RaftCluster.Cluster, m: RaftCluster.Message)
    requires RaftInvariants.Inv(g) && IsRecorded(g, m)
    ensures IsLeadersLog(RecordMatch(g.nodes[m.to], m.from, m.prevIndex + m.count))
  {
    hide IsLeadersLog, RaftInvariants.Inv, RecordMatch;
    var s := g.nodes[m.to];
    ReplyIsAcked(g, m);
    LeaderIsOk(g, m.to);
    forall p | p in s.matchIndex && s.matchIndex[p] > 0 ensures s.matchIndex[p] <= |s.log.entries| {
      AcksFit(g, m.to, RaftCluster.Ack(p, s.currentTerm, s.matchIndex[p]));
    }
    AcksFit(g, m.to, RaftCluster.Ack(m.from, s.currentTerm, m.prevIndex + m.count));
    OwnTermIsLast(g, m.to);
    LeadersLogIs(s, m.from, m.prevIndex + m.count);
  }

  lemma ReplyIsAcked(g: RaftCluster.Cluster, m: RaftCluster.Message)
    requires RaftInvariants.Inv(g) && IsRecorded(g, m)
    ensures RaftCluster.Ack(m.from, g.nodes[m.to].currentTerm, m.prevIndex + m.count) in g.history.acks
  {
    hide RaftInvariants.NodesOk, RaftInvariants.ElectionsOk, RaftInvariants.GrantsOk, RaftInvariants.AcksOk,
      RaftInvariants.OutcomesOk;
    assert RaftInvariants.MessageOk(g, m);
  }

  lemma LeaderIsOk(g: RaftCluster.Cluster, n: Id)
    requires RaftInvariants.Inv(g) && n in g.nodes && g.nodes[n].role == Leader
    ensures var s := g.nodes[n];
            && s.log.lastIncludedIndex == 0
            && s.currentTerm in g.history.logs && g.history.logs[s.currentTerm] == s.log.entries
            && forall p | p in s.matchIndex ::
                 s.matchIndex[p] == 0 || RaftCluster.Ack(p, s.currentTerm, s.matchIndex[p]) in g.history.acks
  {
    hide RaftInvariants.ElectionsOk, RaftInvariants.GrantsOk, RaftInvariants.AcksOk, RaftInvariants.OutcomesOk,
      RaftInvariants.MessagesOk, RaftInvariants.NodeLogOk, RaftInvariants.VotesOk;
    assert RaftInvariants.NodeOk(g.history, g.servers, n, g.nodes[n]);
  }

  /** Nobody has acknowledged more than the leader of a term has. */
  lemma AcksFit(g: RaftCluster.Cluster, n: Id, a: RaftCluster.Ack)
    requires RaftInvariants.Inv(g) && n in g.nodes && a in g.history.acks
    requires a.term in g.history.logs && g.history.logs[a.term] == g.nodes[n].log.entries
    ensures a.length <= |g.nodes[n].log.entries|
  {
    hide RaftInvariants.NodesOk, RaftInvariants.ElectionsOk, RaftInvariants.GrantsOk, RaftInvariants.OutcomesOk,
      RaftInvariants.MessagesOk;
    assert RaftInvariants.AckOk(g.history, g.servers, a, g.nodes[a.node]);
  }

  lemma OwnTermIsLast(g: RaftCluster.Cluster, n: Id)
    requires RaftInvariants.Inv(g) && n in g.nodes
    requires g.nodes[n].currentTerm in g.history.logs
    requires g.history.logs[g.nodes[n].currentTerm] == g.nodes[n].log.entries
    ensures var s := g.nodes[n];
            forall a, b | 0 <= a <= b < |s.log.entries| && s.log.entries[a].term == s.currentTerm ::
              s.log.entries[b].term == s.currentTerm
  {
    hide RaftInvariants.NodesOk, RaftInvariants.GrantsOk, RaftInvariants.AcksOk, RaftInvariants.OutcomesOk,
      RaftInvariants.MessagesOk, RaftInvariants.LogOk;
    var s, h, t := g.nodes[n], g.history, g.nodes[n].currentTerm;
    assert RaftInvariants.TermLogOk(h, t) && RaftInvariants.ElectionOk(h, g.servers, t);
    var e := h.elections[t].log;
    forall a | 0 <= a < |e| ensures s.log.entries[a].term < t {
      assert s.log.entries[..|e|][a] == e[a];
    }
  }

  lemma LeadersLogIs(s: NodeState, p: Id, n: nat)
    requires s.log.lastIncludedIndex == 0 && n <= |s.log.entries|
    requires forall q | q in s.matchIndex && s.matchIndex[q] > 0 :: s.matchIndex[q] <= |s.log.entries|
    requires forall a, b | 0 <= a <= b < |s.log.entries| && s.log.entries[a].term == s.currentTerm ::
               s.log.entries[b].term == s.currentTerm
    ensures IsLeadersLog(RecordMatch(s, p, n))
  {
    var s1 := RecordMatch(s, p, n);
    forall a, b | 0 < a <= b <= s1.log.Length() && s1.log.TermAt(a) == s.currentTerm
      ensures s1.log.TermAt(b) == s.currentTerm
    {
      assert s1.log.TermAt(a) == s.log.entries[a - 1].term && s1.log.TermAt(b) == s.log.entries[b - 1].term;
    }
  }

  // ----- Elections -----

  /** Asking twice is asking once: whatever a node answers to a request for its vote, it answers again, to the
      same candidate too, and the second request changes nothing. */
  lemma VotesAreRepeatable(s: NodeState, r: VoteRequest)
    ensures var (s', granted) := HandleRequestVote(s, r); HandleRequestVote(s', r) == (s', granted)
  {
  }

  /** The candidate after it got the replies of some peers to its request, in this order. */
  ghost function Collected(s: NodeState, c: Config, term: nat, voters: seq<Id>): NodeState {
    if voters == [] then s
    else OnVoteReply(Collected(s, c, term, voters[..|voters| - 1]), c, voters[|voters| - 1], term, term, true)
  }

  /** A voter of an earlier term, whose log is no fresher than the candidate's. */
  predicate WillGrant(v: NodeState, s: NodeState) {
    && v.currentTerm <= s.currentTerm
    && UpToDate(s.log.Length(), s.log.TermAt(s.log.Length()), v.log.Length(), v.log.TermAt(v.log.Length()))
  }

  /** A candidate that such a voter grants its vote to: the voter replies in the candidate's new term. */
  lemma FreshLogGetsVote(s: NodeState, c: Config, v: NodeState)
    requires WillGrant(v, s)
    ensures var s' := StartElection(s, c);
            var (v', granted) := HandleRequestVote(v, VoteRequestOf(s', c));
            granted && v'.currentTerm == s'.currentTerm == s.currentTerm + 1 && v'.votedFor == Some(c.me)
  {
  }

  function Members(me: Id, voters: seq<Id>): set<Id> {
    {me} + set v | v in voters
  }

  /** Different peers. */
  ghost predicate AreVoters(c: Config, voters: seq<Id>) {
    && c.me !in c.peers && (forall v | v in voters :: v in c.peers)
    && forall i, j | 0 <= i < j < |voters| :: voters[i] != voters[j]
  }

  lemma LastVoter(c: Config, voters: seq<Id>)
    requires AreVoters(c, voters) && voters != []
    ensures var init, last := voters[..|voters| - 1], voters[|voters| - 1];
            AreVoters(c, init) && voters == init + [last] && last !in init && last != c.me
  {
  }

  lemma AllNodes(c: Config, voters: seq<Id>)
    requires AreVoters(c, voters)
    ensures |{c.me} + c.peers| == |c.peers| + 1
  {
  }

  /** In its own term a candidate with the votes of `voters` besides its own leads iff they are more than half. */
  ghost predicate HasWonIff(s: NodeState, c: Config, before: NodeState, voters: seq<Id>) {
    && s.currentTerm == before.currentTerm + 1 && s.log == before.log && s.votedFor == Some(c.me)
    && s.role == (if voters != [] && 2 * (|voters| + 1) > |c.peers| + 1 then Leader else Candidate)
    && (s.role == Leader ==> StartsToLead(s, c))
    && (s.role == Candidate ==>
          s.currentTerm in s.votes && s.votes[s.currentTerm] == Members(c.me, voters))
  }

  /** Every peer is taken to be behind the end of the log, with nothing matched. */
  ghost predicate StartsToLead(s: NodeState, c: Config) {
    forall p | p in c.peers ::
      && p in s.nextIndex && s.nextIndex[p] == s.log.Length() + 1
      && p in s.matchIndex && s.matchIndex[p] == 0
  }

  lemma NewLeaderStarts(s: NodeState, c: Config)
    ensures var s' := BecomeLeader(s, c);
            && s' == s.(role := Leader, nextIndex := s'.nextIndex, matchIndex := s'.matchIndex)
            && StartsToLead(s', c)
  {
    hide Fill;
    FillValues(s.nextIndex, c.peers, s.log.Length() + 1);
    FillValues(s.matchIndex, c.peers, 0);
  }

  lemma OneMoreVote(s: NodeState, c: Config, before: NodeState, init: seq<Id>, last: Id)
    requires HasWonIff(s, c, before, init) && |Members(c.me, init + [last])| == |init| + 2
    requires |{c.me} + c.peers| == |c.peers| + 1
    ensures HasWonIff(OnVoteReply(s, c, last, s.currentTerm, s.currentTerm, true), c, before, init + [last])
  {
    hide BecomeLeader, StartsToLead;
    if s.role == Candidate {
      var t, voters := s.currentTerm, init + [last];
      var received := s.votes[t] + {last};
      assert received == Members(c.me, voters);
      NewLeaderStarts(s.(votes := s.votes[t := received]), c);
    }
  }

  /** A node that times out and gets the votes of some peers leads exactly when these and its own are more
      than half of all; a node without peers gets none and never leads. On its election it starts with every
      peer behind the end of its log and nothing matched. */
  lemma {:induction false} CandidateWinsIff(s: NodeState, c: Config, voters: seq<Id>)
    requires AreVoters(c, voters)
    ensures HasWonIff(Collected(StartElection(s, c), c, s.currentTerm + 1, voters), c, s, voters)
  {
    if voters == [] {
      assert Members(c.me, voters) == {c.me};
    } else {
      LastVoter(c, voters);
      hide OnVoteReply, HasWonIff, AreVoters;
      var init, last := voters[..|voters| - 1], voters[|voters| - 1];
      CandidateWinsIff(s, c, init);
      CountVoters(c, voters);
      var s1 := Collected(StartElection(s, c), c, s.currentTerm + 1, init);
      WonInTerm(s1, c, s, init);
      OneMoreVote(s1, c, s, init, last);
    }
  }

  lemma WonInTerm(s: NodeState, c: Config, before: NodeState, voters: seq<Id>)
    requires HasWonIff(s, c, before, voters)
    ensures s.currentTerm == before.currentTerm + 1
  {
  }

  lemma {:induction false} CountVoters(c: Config, voters: seq<Id>)
    requires AreVoters(c, voters)
    ensures |Members(c.me, voters)| == |voters| + 1 && |{c.me} + c.peers| == |c.peers| + 1
  {
    AllNodes(c, voters);
    if voters == [] {
      assert Members(c.me, voters) == {c.me};
    } else {
      LastVoter(c, voters);
      hide Members, AreVoters;
      var init, last := voters[..|voters| - 1], voters[|voters| - 1];
      CountVoters(c, init);
      OneMoreMember(c.me, init, last);
    }
  }

  lemma OneMoreMember(me: Id, init: seq<Id>, last: Id)
    requires last !in init && last != me
    ensures |Members(me, init + [last])| == |Members(me, init)| + 1
  {
    assert (Members(me, init + [last])) == Members(me, init) + {last};
  }
}
