/** The life of one node that compacts its log, as follower, candidate and leader. */
module RaftLives {
  import opened Division
  import opened Wrappers
  import opened RaftLogs
  import opened RaftNodes
  import opened RaftCompaction

  // ----- What can happen to a node -----

  datatype Event =
    | TimedOut
    | VoteReplied(peer: Id, requestTerm: nat, replyTerm: nat, granted: bool)
    | Submitted(command: Command)
    // the reply to `count` entries after `prevIndex`, when a majority of the nodes holds `majority`
    | AppendReplied(peer: Id, prevIndex: nat, count: nat, replyTerm: nat, success: bool, majority: nat)
    | Received(append: AppendRequest)
    | Voted(vote: VoteRequest)
    | Restarted

  ghost function Live(s: NodeState, e: Event, c: Config): NodeState
    requires s.log.lastIncludedIndex <= s.lastApplied
  {
    match e
    case TimedOut => if s.role == Leader then s else StartElection(s, c)
    case VoteReplied(peer, requestTerm, replyTerm, granted) =>
      OnVoteReply(s, c, peer, requestTerm, replyTerm, granted)
    case Submitted(command) => SubmitCommand(s, command)
    case AppendReplied(peer, prevIndex, count, replyTerm, success, majority) =>
      OnAppendReply(s, c, peer, prevIndex, count, replyTerm, success, majority)
    case Received(r) => HandleAppendEntries(s, r, c.snapshotInterval).0
    case Voted(r) => HandleRequestVote(s, r).0
    case Restarted => Restart(s)
  }

  /** The whole log after the event. */
  function Grow(s: NodeState, full: seq<Entry>, e: Event, c: Config): seq<Entry> {
    match e
    case Submitted(command) => if s.role == Leader then full + [Entry(s.currentTerm, |full| + 1, command)] else full
    case Received(r) => Appended(s, full, r)
    case _ => full
  }

  /** Leaders are honest, and none of their requests does harm below the snapshot. */
  ghost predicate Admissible(s: NodeState, full: seq<Entry>, e: Event) {
    match e
    case Received(r) => r.term >= s.currentTerm ==> IsHonest(s, full, r) && IsHarmless(s.log, r)
    case _ => true
  }

  ghost predicate Stands(s: NodeState, full: seq<Entry>, c: Config) {
    && StandsFor(s, full) && InTerm(s, full)
    && s.lastApplied - s.log.lastIncludedIndex < c.snapshotInterval
  }

  /** Whatever admissible thing happens to a node, it keeps standing for its whole log, and keeps fewer
      than the snapshot interval of applied entries. */
  lemma EventKeepsStanding(s: NodeState, full: seq<Entry>, e: Event, c: Config)
    requires Stands(s, full, c) && Admissible(s, full, e)
    ensures Stands(Live(s, e, c), Grow(s, full, e, c), c)
  {
    hide StandsFor, InTerm, IsHonest, IsHarmless, HandleAppendEntries, HandleRequestVote, SubmitCommand, CommitTo,
      Restart;
    hide Appended, OnVoteReply, OnAppendReply;
    StandsHasRoom(s, full);
    match e
    case TimedOut => SameLogStands(s, Live(s, e, c), full, c);
    case VoteReplied(peer, requestTerm, replyTerm, granted) =>
      VoteReplyKeepsLog(s, c, peer, requestTerm, replyTerm, granted);
      SameLogStands(s, Live(s, e, c), full, c);
    case Submitted(command) => SubmittedStands(s, full, command);
    case AppendReplied(peer, prevIndex, count, replyTerm, success, majority) =>
      AppendReplyStands(s, full, c, peer, prevIndex, count, replyTerm, success, majority);
    case Received(r) =>
      AppendAgrees(s, full, r, c.snapshotInterval, |MergedWhole(full, r)| + |full| + 1);
      AppendStaysInTerm(s, full, r, c.snapshotInterval);
    case Voted(r) =>
      VoteAgrees(s, full, r);
      VoteKeepsLog(s, r);
      SameTermInTerm(s, HandleRequestVote(s, r).0, full);
    case Restarted => RestartStands(s, full);
  }

  /** Elections and the indices of peers touch nothing that compaction is about. */
  lemma SameLogStands(s: NodeState, s': NodeState, full: seq<Entry>, c: Config)
    requires Stands(s, full, c) && s'.currentTerm >= s.currentTerm
    requires s' == s.(currentTerm := s'.currentTerm, votedFor := s'.votedFor, role := s'.role, votes := s'.votes,
                      nextIndex := s'.nextIndex, matchIndex := s'.matchIndex)
    ensures Stands(s', full, c)
  {
  }

  lemma VoteReplyKeepsLog(s: NodeState, c: Config, peer: Id, requestTerm: nat, replyTerm: nat, granted: bool)
    ensures var s' := OnVoteReply(s, c, peer, requestTerm, replyTerm, granted);
            && s'.currentTerm >= s.currentTerm
            && s' == s.(currentTerm := s'.currentTerm, votedFor := s'.votedFor, role := s'.role, votes := s'.votes,
                        nextIndex := s'.nextIndex, matchIndex := s'.matchIndex)
  {
  }

  /** A leader that records a match may commit, apply and compact. */
  lemma AppendReplyStands(s: NodeState, full: seq<Entry>, c: Config, peer: Id, prevIndex: nat, count: nat,
                          replyTerm: nat, success: bool, majority: nat)
    requires Stands(s, full, c)
    ensures s.log.lastIncludedIndex <= s.lastApplied
    ensures Stands(OnAppendReply(s, c, peer, prevIndex, count, replyTerm, success, majority), full, c)
  {
    hide StandsFor, InTerm, CommitTo;
    StandsHasRoom(s, full);
    if replyTerm <= s.currentTerm && s.role == Leader && success && count > 0 {
      var s1 := RecordMatch(s, peer, prevIndex + count);
      SameLogStands(s, s1, full, c);
      CommittedStands(s1, full, c, majority);
    } else {
      SameLogStands(s, OnAppendReply(s, c, peer, prevIndex, count, replyTerm, success, majority), full, c);
    }
  }

  lemma RestartStands(s: NodeState, full: seq<Entry>)
    requires StandsFor(s, full) && InTerm(s, full)
    ensures var s' := Restart(s); StandsFor(s', full) && InTerm(s', full) && s'.lastApplied == s'.log.lastIncludedIndex
  {
  }

  lemma StandsHasRoom(s: NodeState, full: seq<Entry>)
    requires StandsFor(s, full)
    ensures s.log.lastIncludedIndex <= s.lastApplied <= s.commitIndex <= s.log.Length() == |full|
  {
  }

  lemma VoteKeepsLog(s: NodeState, r: VoteRequest)
    ensures var s' := HandleRequestVote(s, r).0;
            s'.log == s.log && s'.lastApplied == s.lastApplied && s'.currentTerm >= s.currentTerm
  {
  }

  lemma CommittedStands(s: NodeState, full: seq<Entry>, c: Config, k: nat)
    requires Stands(s, full, c)
    ensures s.log.lastIncludedIndex <= s.lastApplied && Stands(CommitTo(s, c, k), full, c)
  {
    hide StandsFor, InTerm;
    StandsHasRoom(s, full);
    if CommitTo(s, c, k) != s {
      StandsCommitted(s, full, k);
      ApplyAgrees(s.(commitIndex := k), full, c.snapshotInterval, |full| + 1);
      ApplyKeepsTerm(s.(commitIndex := k), c.snapshotInterval);
      SameTermInTerm(s, CommitTo(s, c, k), full);
    }
  }

  lemma SameTermInTerm(s: NodeState, s': NodeState, full: seq<Entry>)
    requires InTerm(s, full) && s'.currentTerm >= s.currentTerm
    ensures InTerm(s', full)
  {
  }

  lemma SubmittedStands(s: NodeState, full: seq<Entry>, command: Command)
    requires StandsFor(s, full) && InTerm(s, full)
    ensures var s', e := SubmitCommand(s, command), Entry(s.currentTerm, |full| + 1, command);
            var full' := if s.role == Leader then full + [e] else full;
            && StandsFor(s', full') && InTerm(s', full')
            && s'.lastApplied == s.lastApplied && s'.log.lastIncludedIndex == s.log.lastIncludedIndex
  {
    hide StandsFor, InTerm, LogState.Represents;
    AppendedStands(s, full, Entry(s.currentTerm, |full| + 1, command));
    LengthAgrees(s, full);
  }

  lemma AppendedStands(s: NodeState, full: seq<Entry>, e: Entry)
    requires StandsFor(s, full) && InTerm(s, full) && e.term == s.currentTerm
    ensures var s' := s.(log := s.log.Append(e)); StandsFor(s', full + [e]) && InTerm(s', full + [e])
  {
    AppendKeepsRepresenting(s.log, full, e);
    LastAscends(full, e);
    var i, j := s.lastApplied, s.log.lastIncludedIndex;
    assert (full + [e])[..|full|] == full[..|full|];
    SamePrefixes(full, full + [e], |full|, i);
    SamePrefixes(full, full + [e], |full|, j);
    hide ApplyLog, SnapshotOf, Ascending, TermOf, LogState.Represents;
  }

  lemma LastAscends(full: seq<Entry>, e: Entry)
    requires Ascending(full) && forall f | f in full :: f.term <= e.term
    ensures Ascending(full + [e])
  {
  }

  lemma {:induction false} ApplyKeepsTerm(s: NodeState, interval: nat)
    requires s.log.lastIncludedIndex <= s.lastApplied && s.commitIndex <= s.log.Length()
    ensures ApplyCommitted(s, interval).currentTerm == s.currentTerm
    decreases s.commitIndex - s.lastApplied
  {
    if s.lastApplied < s.commitIndex {
      ApplyKeepsTerm(CheckSnapshot(ApplyNext(s), interval), interval);
    }
  }

  /** The merged log is the old one up to some index, and shipped entries after it. */
  lemma {:induction false} MergedShape(full: seq<Entry>, prev: nat, entries: seq<Entry>) returns (k: nat)
    requires prev <= |full|
    ensures k <= |entries| && prev + k <= |full|
    ensures MergeEntries(Whole(full), prev, entries) in {Whole(full), Whole(full[..prev + k] + entries[k..])}
    ensures k > 0 ==> full[prev + k - 1].term == entries[k - 1].term
    decreases |entries|
  {
    k := 0;
    if entries != [] {
      var e, i := entries[0], prev + 1;
      if i <= |full| && full[prev].term == e.term {
        var n := MergedShape(full, i, entries[1..]);
        assert entries[n + 1..] == entries[1..][n..];
        k := n + 1;
      } else {
        assert MergeEntry(Whole(full), i, e) == Whole(full[..prev] + [e]);
        AppendAll(full[..prev] + [e], entries[1..]);
        assert full[..prev] + [e] + entries[1..] == full[..prev] + entries;
        assert entries[0..] == entries;
      }
    }
  }

  lemma AppendStaysInTerm(s: NodeState, full: seq<Entry>, r: AppendRequest, interval: nat)
    requires StandsFor(s, full) && InTerm(s, full)
    requires r.term >= s.currentTerm ==> IsHonest(s, full, r)
    ensures InTerm(HandleAppendEntries(s, r, interval).0, Appended(s, full, r))
  {
    hide *;
    StandsHasRoom(s, full);
    HandledTerm(s, r, interval);
    var s' := HandleAppendEntries(s, r, interval).0;
    if r.term >= s.currentTerm && s.log.Matches(r.prevIndex, r.prevTerm) {
      PreviousTerm(s, full, r);
      MergedAscends(s, full, r);
      InLaterTerm(s', MergedWhole(full, r), r.term);
      AppendedIs(s, full, r);
    } else {
      SameTermInTerm(s, s', full);
      AppendedIs(s, full, r);
    }
  }

  lemma AppendedIs(s: NodeState, full: seq<Entry>, r: AppendRequest)
    ensures Appended(s, full, r) == if r.term >= s.currentTerm && s.log.Matches(r.prevIndex, r.prevTerm)
                                    then MergedWhole(full, r) else full
  {
  }

  ghost predicate TermsUpTo(full: seq<Entry>, term: nat) {
    Ascending(full) && forall e | e in full :: e.term <= term
  }

  lemma InLaterTerm(s: NodeState, full: seq<Entry>, term: nat)
    requires TermsUpTo(full, term) && s.currentTerm >= term
    ensures InTerm(s, full)
  {
  }

  lemma MergedAscends(s: NodeState, full: seq<Entry>, r: AppendRequest)
    requires InTerm(s, full) && IsHonest(s, full, r) && r.prevIndex <= |full| && r.term >= s.currentTerm
    requires 0 < r.prevIndex ==> full[r.prevIndex - 1].term == r.prevTerm
    ensures TermsUpTo(MergedWhole(full, r), r.term)
  {
    hide MergeEntries, Repeats;
    var k := MergedShape(full, r.prevIndex, r.entries);
    JoinedAscends(full, r.prevIndex, k, r.entries, r.prevTerm);
    hide Ascending;
    forall e | e in MergedWhole(full, r) ensures e.term <= r.term {
      assert e in full || e in r.entries;
    }
  }

  lemma PreviousTerm(s: NodeState, full: seq<Entry>, r: AppendRequest)
    requires StandsFor(s, full) && IsHonest(s, full, r) && s.log.Matches(r.prevIndex, r.prevTerm)
    ensures r.prevIndex <= |full| && (0 < r.prevIndex ==> full[r.prevIndex - 1].term == r.prevTerm)
  {
    AcceptedByWhole(s, full, r);
  }

  lemma HandledTerm(s: NodeState, r: AppendRequest, interval: nat)
    requires s.log.lastIncludedIndex <= s.lastApplied
    ensures var s' := HandleAppendEntries(s, r, interval).0;
            s'.currentTerm == if r.term > s.currentTerm then r.term else s.currentTerm
  {
    hide MergeEntries, LogState.Matches;
    if IsAccepted(s, r) {
      var s1 := if r.term > s.currentTerm then UpdateTerm(s, r.term) else s;
      MergeKeepsSnapshot(s.log, r.prevIndex, r.entries);
      var s2 := s1.(log := MergeEntries(s.log, r.prevIndex, r.entries));
      if r.leaderCommit > s2.commitIndex {
        ApplyKeepsTerm(s2.(commitIndex := Min(r.leaderCommit, s2.log.Length())), interval);
      }
    }
  }

  lemma JoinedAscends(full: seq<Entry>, prev: nat, k: nat, entries: seq<Entry>, prevTerm: nat)
    requires Ascending(full) && Ascending(entries) && k <= |entries| && prev + k <= |full|
    requires k > 0 ==> full[prev + k - 1].term == entries[k - 1].term
    requires prev > 0 ==> full[prev - 1].term == prevTerm && forall e | e in entries :: prevTerm <= e.term
    ensures Ascending(full[..prev + k] + entries[k..])
  {
    var w := full[..prev + k] + entries[k..];
    forall i, j | 0 <= i < j < |w| ensures w[i].term <= w[j].term {
      if i < prev + k <= j {
        assert w[j] == entries[j - prev];
        assert full[i].term <= full[prev + k - 1].term;
        if k > 0 {
          assert entries[k - 1].term <= entries[j - prev].term;
        } else {
          assert w[j] in entries;
        }
      }
    }
  }

  /** A node and its whole log after a sequence of events. */
  ghost predicate Lives(s: NodeState, full: seq<Entry>, events: seq<Event>, c: Config, s': NodeState, full': seq<Entry>)
    decreases |events|
  {
    if events == [] then s' == s && full' == full
    else
      && s.log.lastIncludedIndex <= s.lastApplied
      && Admissible(s, full, events[0])
      && Lives(Live(s, events[0], c), Grow(s, full, events[0], c), events[1..], c, s', full')
  }

  lemma {:induction false} LivesKeepStanding(s: NodeState, full: seq<Entry>, events: seq<Event>, c: Config,
                                             s': NodeState, full': seq<Entry>)
    requires Stands(s, full, c) && Lives(s, full, events, c, s', full')
    ensures Stands(s', full', c)
    decreases |events|
  {
    if events != [] {
      EventKeepsStanding(s, full, events[0], c);
      LivesKeepStanding(Live(s, events[0], c), Grow(s, full, events[0], c), events[1..], c, s', full');
    }
  }

  lemma FreshNodeStands(c: Config)
    requires 1 <= c.snapshotInterval
    ensures Stands(FRESH_NODE, [], c)
  {
  }

  /** Compaction is transparent: after any admissible life of a fresh node, the stored entries are the
      end of its whole log, its store is the fold of all it has applied, and fewer than the snapshot
      interval of applied entries are still stored. */
  lemma CompactionIsTransparent(events: seq<Event>, c: Config, s: NodeState, full: seq<Entry>)
    requires 1 <= c.snapshotInterval && Lives(FRESH_NODE, [], events, c, s, full)
    ensures s.log.lastIncludedIndex <= |full| && s.log.entries == full[s.log.lastIncludedIndex..]
    ensures s.lastApplied <= |full| && s.store == ApplyLog(full[..s.lastApplied])
    ensures s.lastApplied - s.log.lastIncludedIndex < c.snapshotInterval
    ensures StandsFor(s, full)
  {
    FreshNodeStands(c);
    LivesKeepStanding(FRESH_NODE, [], events, c, s, full);
  }

  // ----- When snapshots are taken -----

  /** The snapshot ends at a multiple of the interval. */
  predicate IsRegular(log: LogState, interval: nat)
    requires interval > 0
  {
    log.lastIncludedIndex % interval == 0
  }

  lemma OneIntervalMore(x: nat, interval: nat)
    requires interval > 0 && x % interval == 0
    ensures (x + interval) % interval == 0
  {
    DivisionIsUnique(x + interval, x / interval + 1, 0, interval);
  }

  lemma {:induction false} ApplyKeepsRegular(s: NodeState, interval: nat)
    requires 0 < interval && IsRegular(s.log, interval) && s.commitIndex <= s.log.Length()
    requires s.log.lastIncludedIndex <= s.lastApplied < s.log.lastIncludedIndex + interval
    ensures IsRegular(ApplyCommitted(s, interval).log, interval)
    decreases s.commitIndex - s.lastApplied
  {
    if s.lastApplied < s.commitIndex {
      OneIntervalMore(s.log.lastIncludedIndex, interval);
      hide IsRegular;
      var s1 := CheckSnapshot(ApplyNext(s), interval);
      NextIsRegular(s, interval);
      ApplyKeepsRegular(s1, interval);
    }
  }

  lemma NextIsRegular(s: NodeState, interval: nat)
    requires 0 < interval && IsRegular(s.log, interval) && s.lastApplied < s.commitIndex <= s.log.Length()
    requires s.log.lastIncludedIndex <= s.lastApplied < s.log.lastIncludedIndex + interval
    ensures var s1 := CheckSnapshot(ApplyNext(s), interval);
            && IsRegular(s1.log, interval) && s1.log.Length() == s.log.Length()
            && s1.log.lastIncludedIndex <= s1.lastApplied < s1.log.lastIncludedIndex + interval
  {
    OneIntervalMore(s.log.lastIncludedIndex, interval);
  }

  lemma EventKeepsRegular(s: NodeState, full: seq<Entry>, e: Event, c: Config)
    requires Stands(s, full, c) && c.snapshotInterval > 0 && IsRegular(s.log, c.snapshotInterval)
    ensures s.log.lastIncludedIndex <= s.lastApplied && IsRegular(Live(s, e, c).log, c.snapshotInterval)
  {
    hide IsRegular, MergeEntries, StandsFor, InTerm;
    StandsHasRoom(s, full);
    match e
    case AppendReplied(peer, prevIndex, count, replyTerm, success, majority) =>
      var s1 := RecordMatch(s, peer, prevIndex + count);
      if s.commitIndex < majority <= s.log.Length() {
        ApplyKeepsRegular(s1.(commitIndex := majority), c.snapshotInterval);
      }
    case Received(r) =>
      var s1 := if r.term > s.currentTerm then UpdateTerm(s, r.term) else s;
      var s2 := s1.(log := MergeEntries(s1.log, r.prevIndex, r.entries));
      MergeKeepsSnapshot(s1.log, r.prevIndex, r.entries);
      SameSnapshotIsRegular(s.log, s2.log, c.snapshotInterval);
      if r.leaderCommit > s2.commitIndex {
        ApplyKeepsRegular(s2.(commitIndex := Min(r.leaderCommit, s2.log.Length())), c.snapshotInterval);
      }
    case Submitted(command) =>
      SameSnapshotIsRegular(s.log, SubmitCommand(s, command).log, c.snapshotInterval);
    case VoteReplied(peer, requestTerm, replyTerm, granted) =>
      VoteReplyKeepsLog(s, c, peer, requestTerm, replyTerm, granted);
    case Voted(r) =>
      VoteKeepsLog(s, r);
    case _ =>
  }

  lemma SameSnapshotIsRegular(a: LogState, b: LogState, interval: nat)
    requires 0 < interval && IsRegular(a, interval) && a.lastIncludedIndex == b.lastIncludedIndex
    ensures IsRegular(b, interval)
  {
  }

  lemma {:induction false} LivesStayRegular(s: NodeState, full: seq<Entry>, events: seq<Event>, c: Config,
                                            s': NodeState, full': seq<Entry>)
    requires Stands(s, full, c) && Lives(s, full, events, c, s', full')
    requires c.snapshotInterval > 0 && IsRegular(s.log, c.snapshotInterval)
    ensures IsRegular(s'.log, c.snapshotInterval)
    decreases |events|
  {
    if events != [] {
      hide IsRegular;
      EventKeepsRegular(s, full, events[0], c);
      EventKeepsStanding(s, full, events[0], c);
      LivesStayRegular(Live(s, events[0], c), Grow(s, full, events[0], c), events[1..], c, s', full');
    }
  }

  /** Snapshots come by the interval: after any admissible life of a fresh node its snapshot ends at the last
      multiple of the interval that it has applied, neither earlier nor later. */
  lemma SnapshotsComeByInterval(events: seq<Event>, c: Config, s: NodeState, full: seq<Entry>)
    requires 1 <= c.snapshotInterval && Lives(FRESH_NODE, [], events, c, s, full)
    ensures s.log.lastIncludedIndex == s.lastApplied - s.lastApplied % c.snapshotInterval
  {
    FreshNodeStands(c);
    LivesKeepStanding(FRESH_NODE, [], events, c, s, full);
    LivesStayRegular(FRESH_NODE, [], events, c, s, full);
    var n, k := s.log.lastIncludedIndex, c.snapshotInterval;
    StandsHasRoom(s, full);
    LastMultiple(s.lastApplied, n, k);
  }

  lemma LastMultiple(x: nat, n: nat, k: nat)
    requires k > 0 && n % k == 0 && n <= x < n + k
    ensures n == x - x % k
  {
    DivisionIsUnique(x, n / k, x - n, k);
  }

  // ----- A life of a leader -----

  /** A node that is elected by its one peer, submits an entry, commits and compacts it, and then follows
      that peer. */
  function LeaderEvents(peer: Id, command: Command, next: Entry): seq<Event> {
    [TimedOut, VoteReplied(peer, 1, 1, true), Submitted(command), AppendReplied(peer, 0, 1, 1, true, 1),
     Received(AppendRequest(2, peer, 1, 1, [next], 1))]
  }

  lemma LivesOn(s: NodeState, full: seq<Entry>, e: Event, rest: seq<Event>, c: Config, s': NodeState, full': seq<Entry>)
    requires s.log.lastIncludedIndex <= s.lastApplied && Admissible(s, full, e)
    requires Lives(Live(s, e, c), Grow(s, full, e, c), rest, c, s', full')
    ensures Lives(s, full, [e] + rest, c, s', full')
  {
    assert ([e] + rest)[1..] == rest;
  }

  lemma WinsElection(c: Config, peer: Id) returns (s: NodeState)
    requires c.peers == {peer} && peer != c.me
    ensures s == Live(Live(FRESH_NODE, TimedOut, c), VoteReplied(peer, 1, 1, true), c)
    ensures s == FRESH_NODE.(currentTerm := 1, votedFor := Some(c.me), role := Leader, votes := s.votes,
                            nextIndex := s.nextIndex, matchIndex := s.matchIndex)
  {
    var candidate := StartElection(FRESH_NODE, c);
    assert candidate.votes[1] + {peer} == {c.me, peer} == {c.me} + c.peers;
    hide Fill;
    s := OnVoteReply(candidate, c, peer, 1, 1, true);
  }

  lemma CompactsItsEntry(s: NodeState, c: Config, peer: Id, command: Command) returns (s': NodeState)
    requires c.snapshotInterval == 1
    requires s == FRESH_NODE.(currentTerm := 1, votedFor := s.votedFor, role := Leader, votes := s.votes,
                             nextIndex := s.nextIndex, matchIndex := s.matchIndex)
    ensures var submitted := Live(s, Submitted(command), c);
            submitted.log.lastIncludedIndex <= submitted.lastApplied
            && s' == Live(submitted, AppendReplied(peer, 0, 1, 1, true, 1), c)
    ensures s'.currentTerm == 1 && s'.role == Leader && s'.log == LogState([], 1, 1)
    ensures s'.lastApplied == 1 && s'.commitIndex == 1 && s'.store == ApplyLog([Entry(1, 1, command)])
  {
    var e := Entry(1, 1, command);
    var submitted := Live(s, Submitted(command), c);
    assert submitted.log == LogState([e], 0, 0);
    var recorded := RecordMatch(submitted, peer, 1).(commitIndex := 1);
    var applied := CheckSnapshot(ApplyNext(recorded), 1);
    assert [e][..0] == [];
    assert ApplyCommitted(recorded, 1) == ApplyCommitted(applied, 1) == applied;
    s' := applied;
  }

  lemma FollowsAgain(s: NodeState, c: Config, peer: Id, next: Entry) returns (s': NodeState)
    requires s.currentTerm == 1 && s.log == LogState([], 1, 1) && s.lastApplied == 1 == s.commitIndex
    ensures s' == Live(s, Received(AppendRequest(2, peer, 1, 1, [next], 1)), c)
    ensures s' == s.(currentTerm := 2, votedFor := None, role := Follower, log := LogState([next], 1, 1))
  {
    var r := AppendRequest(2, peer, 1, 1, [next], 1);
    assert [next][1..] == [] && [] + [next] == [next];
    assert MergeEntries(s.log, 1, [next]) == MergeEntry(s.log, 2, next) == LogState([next], 1, 1);
    s' := HandleAppendEntries(s, r, c.snapshotInterval).0;
  }

  /** Its life is admissible: the submitted entry is in the whole log, in the store and in the snapshot, and
      no longer in the stored log. */
  lemma LeaderCompactsItsEntry(c: Config, peer: Id, command: Command, next: Entry) returns (s: NodeState)
    requires c.snapshotInterval == 1 && c.peers == {peer} && peer != c.me && next.term == 2
    ensures Lives(FRESH_NODE, [], LeaderEvents(peer, command, next), c, s, [Entry(1, 1, command), next])
    ensures s.role == Follower && s.log == LogState([next], 1, 1)
    ensures s.lastApplied == 1 && s.store == ApplyLog([Entry(1, 1, command)])
  {
    var e, r := Entry(1, 1, command), AppendRequest(2, peer, 1, 1, [next], 1);
    var full := [e, next];
    var s1 := Live(FRESH_NODE, TimedOut, c);
    var s2 := WinsElection(c, peer);
    var s3 := Live(s2, Submitted(command), c);
    var s4 := CompactsItsEntry(s2, c, peer, command);
    s := FollowsAgain(s4, c, peer, next);
    hide Live;
    assert [] + [e] == [e] && Grow(s2, [], Submitted(command), c) == [e];
    assert Grow(s4, [e], Received(r), c) == full && Admissible(s4, [e], Received(r)) by {
      assert [next][1..] == [] && [e] + [next] == full;
      assert MergeEntries(Whole([e]), 1, [next]) == MergeEntry(Whole([e]), 2, next);
    }
    assert Lives(s, full, [], c, s, full);
    LivesOn(s4, [e], Received(r), [], c, s, full);
    var rest := [Received(r)] + [];
    var replied, submitted := AppendReplied(peer, 0, 1, 1, true, 1), Submitted(command);
    LivesOn(s3, [e], replied, rest, c, s, full);
    LivesOn(s2, [], submitted, [replied] + rest, c, s, full);
    LivesOn(s1, [], VoteReplied(peer, 1, 1, true), [submitted] + ([replied] + rest), c, s, full);
    LivesOn(FRESH_NODE, [], TimedOut, [VoteReplied(peer, 1, 1, true)] + ([submitted] + ([replied] + rest)), c, s, full);
    assert LeaderEvents(peer, command, next)
           == [TimedOut] + ([VoteReplied(peer, 1, 1, true)] + ([submitted] + ([replied] + rest)));
  }
}
