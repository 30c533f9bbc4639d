/** One Raft node (raft_node.py): each handler as a function on the node's value, and the class
    whose methods carry the handlers out in place. */
module RaftNodes {
  import opened Wrappers
  import opened RaftLogs

  datatype Role = Follower | Candidate | Leader

  /** What never changes while a node runs. `peers` excludes the node itself. */
  datatype Config = Config(me: Id, peers: set<Id>, snapshotInterval: nat) {

    function Majority(): nat {
      |{me} + peers| / 2
    }
  }

  /** The value of a node. `votes[t]` is the set of votes the workers of the election of term `t`
      share; it is volatile, like everything except the term, the vote, the log and the snapshot. */
  datatype NodeState = NodeState(
    currentTerm: nat,
    votedFor: Option<Id>,
    role: Role,
    log: LogState,
    commitIndex: nat,
    lastApplied: nat,
    nextIndex: map<Id, nat>,
    matchIndex: map<Id, nat>,
    votes: map<nat, set<Id>>,
    store: Store,
    snapshot: Option<Snapshot>)

  datatype VoteRequest = VoteRequest(term: nat, candidate: Id, lastLogIndex: nat, lastLogTerm: nat)

  datatype AppendRequest = AppendRequest(
    term: nat, leader: Id, prevIndex: nat, prevTerm: nat, entries: seq<Entry>, leaderCommit: nat)

  const FRESH_NODE := NodeState(
    0, None, Follower, LogState([], 0, 0), 0, 0, map[], map[], map[], map[], None)

  // ----- Handlers as functions -----

  function UpdateTerm(s: NodeState, term: nat): NodeState {
    s.(currentTerm := term, votedFor := None, role := Follower)
  }

  function StartElection(s: NodeState, c: Config): NodeState {
    s.(currentTerm := s.currentTerm + 1, role := Candidate, votedFor := Some(c.me),
       votes := s.votes[s.currentTerm + 1 := {c.me}])
  }

  function VoteRequestOf(s: NodeState, c: Config): VoteRequest {
    VoteRequest(s.currentTerm, c.me, s.log.Length(), s.log.TermAt(s.log.Length()))
  }

  ghost function BecomeLeader(s: NodeState, c: Config): NodeState {
    s.(role := Leader,
       nextIndex := Fill(s.nextIndex, c.peers, s.log.Length() + 1),
       matchIndex := Fill(s.matchIndex, c.peers, 0))
  }

  /** The map with the same value for all of some keys. */
  ghost function Fill(m: map<Id, nat>, keys: set<Id>, x: nat): map<Id, nat> {
    if keys == {} then m else var p :| p in keys; Fill(m, keys - {p}, x)[p := x]
  }

  /** The worker that asked `peer` for its vote in `requestTerm` gets the reply. The reply is
      counted in the set of its own election, whatever the node's term is by now. */
  ghost function OnVoteReply(s: NodeState, c: Config, peer: Id, requestTerm: nat, replyTerm: nat,
      granted: bool): NodeState {
    if s.role != Candidate then s
    else if replyTerm > s.currentTerm then UpdateTerm(s, replyTerm)
    else if !granted then s
    else
      var received := (if requestTerm in s.votes then s.votes[requestTerm] else {}) + {peer};
      var s1 := s.(votes := s.votes[requestTerm := received]);
      if |received| > c.Majority() then BecomeLeader(s1, c) else s1
  }

  /** What a leader ships to `peer`: everything from the peer's next index on. Nothing is sent when
      the previous entry is inside the snapshot or, an IndexError, past the end of the log. */
  function AppendRequestOf(s: NodeState, c: Config, peer: Id): Option<AppendRequest> {
    var next := if peer in s.nextIndex then s.nextIndex[peer] else 1;
    if s.role != Leader || next < s.log.lastIncludedIndex + 1 || s.log.Length() < next - 1 then None
    else Some(Ship(s, c, next))
  }

  function Ship(s: NodeState, c: Config, next: nat): AppendRequest
    requires 1 <= next <= s.log.Length() + 1
  {
    AppendRequest(s.currentTerm, c.me, next - 1, s.log.TermAt(next - 1), s.log.From(next), s.commitIndex)
  }

  /** How many nodes hold at least `n` entries, as far as a leader with a log of `length` knows. */
  ghost function Support(matchIndex: map<Id, nat>, length: nat, n: nat): nat {
    |set p | p in matchIndex && matchIndex[p] >= n| + if length >= n then 1 else 0
  }

  /** `n` is the greatest index that more than `half` of the nodes hold. */
  ghost predicate IsMajorityMatch(matchIndex: map<Id, nat>, length: nat, half: nat, n: nat) {
    Support(matchIndex, length, n + 1) <= half < Support(matchIndex, length, n)
  }

  /** The leader commits the majority's index if it is new and of the leader's own term. An index
      past the end of the log raises inside the worker, which swallows the exception. */
  function CommitTo(s: NodeState, c: Config, n: nat): NodeState
    requires s.log.lastIncludedIndex <= s.lastApplied
  {
    if s.commitIndex < n <= s.log.Length() && s.log.TermAt(n) == s.currentTerm
    then ApplyCommitted(s.(commitIndex := n), c.snapshotInterval)
    else s
  }

  /** The state after a worker sees the reply to an AppendEntries of `count` entries after
      `prevIndex`; `n` is the majority's index in case the reply moved the match index. */
  function OnAppendReply(s: NodeState, c: Config, peer: Id, prevIndex: nat, count: nat,
                         replyTerm: nat, success: bool, n: nat): NodeState
    requires s.log.lastIncludedIndex <= s.lastApplied
  {
    if replyTerm > s.currentTerm then UpdateTerm(s, replyTerm)
    else if s.role != Leader then s
    else if success then
      if count == 0 then s else CommitTo(RecordMatch(s, peer, prevIndex + count), c, n)
    else if peer in s.nextIndex then
      s.(nextIndex := s.nextIndex[peer := if s.nextIndex[peer] <= 2 then 1 else s.nextIndex[peer] - 1])
    else s
  }

  function RecordMatch(s: NodeState, peer: Id, m: nat): NodeState {
    s.(matchIndex := s.matchIndex[peer := m], nextIndex := s.nextIndex[peer := m + 1])
  }

  function SubmitCommand(s: NodeState, command: Command): NodeState {
    if s.role != Leader then s
    else s.(log := s.log.Append(Entry(s.currentTerm, s.log.Length() + 1, command)))
  }

  function CheckSnapshot(s: NodeState, interval: nat): NodeState
    requires s.log.lastIncludedIndex < s.lastApplied <= s.log.Length()
  {
    if s.lastApplied - s.log.lastIncludedIndex < interval then s
    else
      var term := s.log.TermAt(s.lastApplied);
      s.(log := s.log.Compact(s.lastApplied, term), snapshot := Some(Snapshot(s.store, s.lastApplied, term)))
  }

  function ApplyNext(s: NodeState): NodeState
    requires s.log.Holds(s.lastApplied + 1)
  {
    s.(lastApplied := s.lastApplied + 1,
       store := ApplyCommand(s.store, s.log.At(s.lastApplied + 1).command).0)
  }

  function ApplyCommitted(s: NodeState, interval: nat): NodeState
    requires s.log.lastIncludedIndex <= s.lastApplied
    requires s.commitIndex <= s.log.Length()
    decreases s.commitIndex - s.lastApplied
  {
    if s.lastApplied >= s.commitIndex then s
    else ApplyCommitted(CheckSnapshot(ApplyNext(s), interval), interval)
  }

  predicate UpToDate(lastIndex: nat, lastTerm: nat, ourIndex: nat, ourTerm: nat) {
    lastTerm > ourTerm || (lastTerm == ourTerm && lastIndex >= ourIndex)
  }

  function HandleRequestVote(s: NodeState, r: VoteRequest): (NodeState, bool) {
    if r.term < s.currentTerm then (s, false)
    else
      var s1 := if r.term > s.currentTerm then UpdateTerm(s, r.term) else s;
      var ourIndex := s1.log.Length();
      if (s1.votedFor == None || s1.votedFor == Some(r.candidate))
         && UpToDate(r.lastLogIndex, r.lastLogTerm, ourIndex, s1.log.TermAt(ourIndex))
      then (s1.(votedFor := Some(r.candidate)), true)
      else (s1, false)
  }

  /** The follower's loop over the shipped entries, which start after index `prev`. */
  function MergeEntries(log: LogState, prev: nat, entries: seq<Entry>): LogState
    decreases |entries|
  {
    if entries == [] then log
    else MergeEntries(MergeEntry(log, prev + 1, entries[0]), prev + 1, entries[1..])
  }

  function MergeEntry(log: LogState, i: nat, e: Entry): LogState {
    if i <= log.Length() then
      if log.TermAt(i) != e.term then log.Truncate(i).Append(e) else log
    else log.Append(e)
  }

  function HandleAppendEntries(s: NodeState, r: AppendRequest, interval: nat): (NodeState, bool)
    requires s.log.lastIncludedIndex <= s.lastApplied
  {
    if r.term < s.currentTerm then (s, false)
    else
      var s1 := if r.term > s.currentTerm then UpdateTerm(s, r.term) else s;
      if !s1.log.Matches(r.prevIndex, r.prevTerm) then (s1, false)
      else
        var s2 := s1.(log := MergeEntries(s1.log, r.prevIndex, r.entries));
        MergeKeepsSnapshot(s1.log, r.prevIndex, r.entries);
        if r.leaderCommit > s2.commitIndex
        then (ApplyCommitted(s2.(commitIndex := Min(r.leaderCommit, s2.log.Length())), interval), true)
        else (s2, true)
  }

  function Min(a: nat, b: nat): nat {
    if a <= b then a else b
  }

  function Restart(s: NodeState): NodeState {
    NodeState(s.currentTerm, s.votedFor, Follower, s.log, s.log.lastIncludedIndex, s.log.lastIncludedIndex,
              map[], map[], map[], match s.snapshot { case None => map[] case Some(p) => p.state }, s.snapshot)
  }

  // ----- Facts about the handlers -----

  lemma MergeKeepsSnapshot(log: LogState, prev: nat, entries: seq<Entry>)
    ensures MergeEntries(log, prev, entries).lastIncludedIndex == log.lastIncludedIndex
    ensures MergeEntries(log, prev, entries).lastIncludedTerm == log.lastIncludedTerm
    decreases |entries|
  {
    if entries != [] {
      MergeKeepsSnapshot(MergeEntry(log, prev + 1, entries[0]), prev + 1, entries[1..]);
    }
  }

  lemma SupportIsAntitone(matchIndex: map<Id, nat>, length: nat, a: nat, b: nat)
    requires a <= b
    ensures Support(matchIndex, length, b) <= Support(matchIndex, length, a)
  {
    var more := set p | p in matchIndex && matchIndex[p] >= a;
    var fewer := set p | p in matchIndex && matchIndex[p] >= b;
    SubsetIsSmaller(fewer, more);
  }

  lemma SubsetIsSmaller<T>(a: set<T>, b: set<T>)
    requires a <= b
    ensures |a| <= |b|
  {
    assert b == a + (b - a);
  }

  lemma MajorityMatchIsUnique(matchIndex: map<Id, nat>, length: nat, half: nat, n: nat, n': nat)
    requires IsMajorityMatch(matchIndex, length, half, n)
    requires IsMajorityMatch(matchIndex, length, half, n')
    ensures n == n'
  {
    if n < n' {
      SupportIsAntitone(matchIndex, length, n + 1, n');
    } else if n' < n {
      SupportIsAntitone(matchIndex, length, n' + 1, n);
    }
  }

  lemma {:induction false} FillValues(m: map<Id, nat>, keys: set<Id>, x: nat)
    ensures Fill(m, keys, x).Keys == m.Keys + keys
    ensures forall p | p in m.Keys + keys :: Fill(m, keys, x)[p] == if p in keys then x else m[p]
  {
    if keys != {} {
      var p :| p in keys && Fill(m, keys, x) == Fill(m, keys - {p}, x)[p := x];
      FillValues(m, keys - {p}, x);
    }
  }

  lemma FillNone(m: map<Id, nat>, x: nat)
    ensures Fill(m, {}, x) == m
  {
  }

  lemma FillOne(m: map<Id, nat>, done: set<Id>, p: Id, x: nat)
    ensures Fill(m, done, x)[p := x] == Fill(m, done + {p}, x)
  {
    hide Fill;
    FillValues(m, done, x);
    FillValues(m, done + {p}, x);
    var a, b := Fill(m, done, x)[p := x], Fill(m, done + {p}, x);
    assert a.Keys == b.Keys;
    assert forall q | q in a :: a[q] == b[q];
  }

  lemma LeaderFields(s: NodeState, c: Config, s': NodeState)
    requires s' == s.(role := Leader, nextIndex := s'.nextIndex, matchIndex := s'.matchIndex)
    requires s'.nextIndex == Fill(s.nextIndex, c.peers, s.log.Length() + 1)
    requires s'.matchIndex == Fill(s.matchIndex, c.peers, 0)
    ensures s' == BecomeLeader(s, c)
  {
  }

  // ----- sorted(..., reverse=True) -----

  predicate Descending(s: seq<nat>) {
    forall i, j | 0 <= i < j < |s| :: s[i] >= s[j]
  }

  function InsertDescending(s: seq<nat>, x: nat): seq<nat> {
    if s == [] || x >= s[0] then [x] + s else [s[0]] + InsertDescending(s[1..], x)
  }

  function SortDescending(s: seq<nat>): seq<nat> {
    if s == [] then [] else InsertDescending(SortDescending(s[1..]), s[0])
  }

  function CountAtLeast(s: seq<nat>, n: nat): nat {
    if s == [] then 0 else (if s[0] >= n then 1 else 0) + CountAtLeast(s[1..], n)
  }

  lemma InsertKeepsDescending(s: seq<nat>, x: nat)
    requires Descending(s)
    ensures var r := InsertDescending(s, x);
            Descending(r) && |r| == |s| + 1 && (forall i | 0 <= i < |r| :: r[i] == x || r[i] in s)
  {
    if s != [] && x < s[0] {
      InsertKeepsDescending(s[1..], x);
      var t := InsertDescending(s[1..], x);
      forall i | 0 <= i < |t| ensures s[0] >= t[i] {
        if t[i] != x {
          assert t[i] in s[1..];
        }
      }
    }
  }

  lemma InsertCounts(s: seq<nat>, x: nat, n: nat)
    ensures CountAtLeast(InsertDescending(s, x), n) == CountAtLeast(s, n) + if x >= n then 1 else 0
  {
    if s != [] && x < s[0] {
      InsertCounts(s[1..], x, n);
      assert InsertDescending(s, x)[1..] == InsertDescending(s[1..], x);
    } else {
      assert InsertDescending(s, x)[1..] == s;
    }
  }

  lemma SortSorts(s: seq<nat>, n: nat)
    ensures var r := SortDescending(s); Descending(r) && |r| == |s| && CountAtLeast(r, n) == CountAtLeast(s, n)
  {
    if s != [] {
      SortSorts(s[1..], n);
      InsertKeepsDescending(SortDescending(s[1..]), s[0]);
      InsertCounts(SortDescending(s[1..]), s[0], n);
    }
  }

  lemma DescendingCounts(s: seq<nat>, k: nat)
    requires Descending(s) && k < |s|
    ensures CountAtLeast(s, s[k] + 1) <= k < CountAtLeast(s, s[k])
  {
    if k == 0 {
      CountNone(s, s[0] + 1);
    } else {
      DescendingCounts(s[1..], k - 1);
    }
  }

  lemma CountNone(s: seq<nat>, n: nat)
    requires forall x | x in s :: x < n
    ensures CountAtLeast(s, n) == 0
  {
    if s != [] {
      assert s[0] in s && forall x | x in s[1..] :: x in s;
      CountNone(s[1..], n);
    }
  }

  lemma CountAppend(s: seq<nat>, x: nat, n: nat)
    ensures CountAtLeast(s + [x], n) == CountAtLeast(s, n) + if x >= n then 1 else 0
  {
    if s == [] {
      assert s + [x] == [x];
    } else {
      CountAppend(s[1..], x, n);
      assert (s + [x])[1..] == s[1..] + [x];
    }
  }

  /** The middle of the match values in descending order is the greatest index a majority holds. */
  lemma MiddleIsMajorityMatch(matchIndex: map<Id, nat>, c: Config, values: seq<nat>, length: nat)
    requires matchIndex.Keys == c.peers && c.me !in c.peers && |values| == |matchIndex|
    requires forall n: nat :: CountAtLeast(values, n) == |set p | p in matchIndex && matchIndex[p] >= n|
    ensures var matches := SortDescending(values + [length]);
            c.Majority() < |matches| && IsMajorityMatch(matchIndex, length, c.Majority(), matches[c.Majority()])
  {
    var matches, k := SortDescending(values + [length]), c.Majority();
    SortSorts(values + [length], 0);
    assert |c.peers| == |matchIndex|;
    assert {c.me} !! c.peers;
    DescendingCounts(matches, k);
    SortSorts(values + [length], matches[k]);
    SortSorts(values + [length], matches[k] + 1);
    CountAppend(values, length, matches[k]);
    CountAppend(values, length, matches[k] + 1);
  }

  // ----- The node in place -----

  class RaftNode {
    const config: Config
    const storage: Storage
    const log: RaftLog
    const stateMachine: KeyValueStateMachine
    var currentTerm: nat
    var votedFor: Option<Id>
    var state: Role
    var commitIndex: nat
    var lastApplied: nat
    var nextIndex: map<Id, nat>
    var matchIndex: map<Id, nat>
    var votes: map<nat, set<Id>>

    ghost function View(): NodeState
      reads this, log, storage, stateMachine
    {
      NodeState(currentTerm, votedFor, state, log.View(), commitIndex, lastApplied,
                nextIndex, matchIndex, votes, stateMachine.store, storage.snapshot)
    }

    /** What is durable equals what is in memory; the applied entries include the snapshot. */
    ghost predicate Valid()
      reads this, log, storage, stateMachine
    {
      && log.storage == storage
      && log.Valid()
      && storage.currentTerm == currentTerm
      && storage.votedFor == votedFor
      && log.lastIncludedIndex <= lastApplied
      && config.me !in config.peers
      && (state == Leader ==> matchIndex.Keys == config.peers && nextIndex.Keys == config.peers)
      && matchIndex.Keys <= config.peers
      && nextIndex.Keys <= config.peers
    }

    /** Starts, or restarts, from whatever the storage holds. */
    constructor (config: Config, storage: Storage)
      requires config.me !in config.peers
      ensures Valid() && this.config == config && this.storage == storage
      ensures fresh(log) && fresh(stateMachine)
      ensures forall s: NodeState |
                s.currentTerm == storage.currentTerm && s.votedFor == storage.votedFor
                && s.log == log.View() && s.snapshot == storage.snapshot
              :: View() == Restart(s)
      ensures log.entries == storage.log
      ensures currentTerm == storage.currentTerm && votedFor == storage.votedFor && state == Follower
      ensures commitIndex == lastApplied == log.lastIncludedIndex
      ensures nextIndex == map[] && matchIndex == map[] && votes == map[]
      ensures stateMachine.store == if storage.snapshot.Some? then storage.snapshot.value.state else map[]
    {
      this.config := config;
      this.storage := storage;
      var l := new RaftLog(storage);
      var m := new KeyValueStateMachine();
      log := l;
      stateMachine := m;
      currentTerm := storage.currentTerm;
      votedFor := storage.votedFor;
      commitIndex := l.lastIncludedIndex;
      lastApplied := l.lastIncludedIndex;
      state := Follower;
      nextIndex, matchIndex, votes := map[], map[], map[];
      new;
      match storage.snapshot {
        case None =>
        case Some(p) => stateMachine.Restore(p.state);
      }
    }

    method SaveState()
      modifies storage`currentTerm, storage`votedFor
      ensures storage.currentTerm == currentTerm && storage.votedFor == votedFor
    {
      storage.currentTerm := currentTerm;
      storage.votedFor := votedFor;
    }

    method DoUpdateTerm(term: nat)
      requires Valid()
      modifies this`currentTerm, this`votedFor, this`state, storage`currentTerm, storage`votedFor
      ensures Valid() && View() == UpdateTerm(old(View()), term)
      ensures currentTerm == term && votedFor == None && state == Follower
    {
      currentTerm := term;
      votedFor := None;
      SaveState();
      state := Follower;
    }

    method DoStartElection() returns (request: VoteRequest)
      requires Valid()
      modifies this, storage
      ensures Valid() && View() == StartElection(old(View()), config)
      ensures request == VoteRequestOf(View(), config)
      ensures currentTerm == old(currentTerm) + 1 && state == Candidate && votedFor == Some(config.me)
      ensures currentTerm in votes && votes[currentTerm] == {config.me}
      ensures request.term == currentTerm && request.candidate == config.me
      ensures request.lastLogIndex == log.Length() && log.GetTerm(log.Length()) == Some(request.lastLogTerm)
    {
      currentTerm := currentTerm + 1;
      state := Candidate;
      votedFor := Some(config.me);
      SaveState();
      votes := votes[currentTerm := {config.me}];
      // A candidate's leader bookkeeping is stale but only ever about its peers.
      var lastLogIndex := log.Length();
      request := VoteRequest(currentTerm, config.me, lastLogIndex, log.GetTerm(lastLogIndex).value);
    }

    method DoBecomeLeader()
      requires Valid()
      modifies this`state, this`nextIndex, this`matchIndex
      ensures Valid() && View() == BecomeLeader(old(View()), config)
      ensures state == Leader && forall p | p in config.peers ::
                p in nextIndex && nextIndex[p] == log.Length() + 1 && p in matchIndex && matchIndex[p] == 0
    {
      state := Leader;
      hide Fill;
      ResetPeers(log.Length());
      LeaderFields(old(View()), config, View());
      FillValues(old(nextIndex), config.peers, log.Length() + 1);
      FillValues(old(matchIndex), config.peers, 0);
    }

    /** The loop of `_become_leader` over the peers. */
    method ResetPeers(lastLogIndex: nat)
      modifies this`nextIndex, this`matchIndex
      ensures nextIndex == Fill(old(nextIndex), config.peers, lastLogIndex + 1)
      ensures matchIndex == Fill(old(matchIndex), config.peers, 0)
    {
      hide Fill;
      ghost var next0, match0 := nextIndex, matchIndex;
      var todo := config.peers;
      assert config.peers - todo == {};
      FillNone(next0, lastLogIndex + 1);
      FillNone(match0, 0);
      while todo != {}
        invariant todo <= config.peers
        invariant nextIndex == Fill(next0, config.peers - todo, lastLogIndex + 1)
        invariant matchIndex == Fill(match0, config.peers - todo, 0)
        decreases |todo|
      {
        var peer :| peer in todo;
        FillOne(next0, config.peers - todo, peer, lastLogIndex + 1);
        FillOne(match0, config.peers - todo, peer, 0);
        assert config.peers - todo + {peer} == config.peers - (todo - {peer});
        nextIndex := nextIndex[peer := lastLogIndex + 1];
        matchIndex := matchIndex[peer := 0];
        todo := todo - {peer};
      }
      assert config.peers - todo == config.peers;
    }

    method DoVoteReply(peer: Id, requestTerm: nat, replyTerm: nat, granted: bool)
      requires Valid() && peer in config.peers
      modifies this, storage
      ensures Valid() && View() == OnVoteReply(old(View()), config, peer, requestTerm, replyTerm, granted)
      ensures old(state) != Candidate ==> View() == old(View())
      ensures old(state) == Candidate && replyTerm > old(currentTerm) ==>
                currentTerm == replyTerm && state == Follower && votedFor == None
      ensures old(state) == Candidate && replyTerm <= old(currentTerm) && !granted ==> View() == old(View())
      ensures old(state) == Candidate && replyTerm <= old(currentTerm) && granted ==>
                && currentTerm == old(currentTerm) && requestTerm in votes
                && votes[requestTerm] == (if requestTerm in old(votes) then old(votes)[requestTerm] else {}) + {peer}
                && state == if 2 * |votes[requestTerm]| > |{config.me} + config.peers| then Leader else Candidate
    {
      if state != Candidate {
        return;
      }
      if replyTerm > currentTerm {
        DoUpdateTerm(replyTerm);
        return;
      }
      if granted {
        var received := (if requestTerm in votes then votes[requestTerm] else {}) + {peer};
        votes := votes[requestTerm := received];
        if |received| > |{config.me} + config.peers| / 2 {
          DoBecomeLeader();
        }
      }
    }

    method DoAppendRequest(peer: Id) returns (request: Option<AppendRequest>)
      requires Valid()
      ensures request == AppendRequestOf(View(), config, peer)
      ensures request.Some? <==>
                var next := if peer in nextIndex then nextIndex[peer] else 1;
                state == Leader && log.lastIncludedIndex < next <= log.Length() + 1
      ensures request.Some? && peer in nextIndex ==> request.value.prevIndex + 1 == nextIndex[peer]
      ensures request.Some? ==>
                && request.value.prevIndex + |request.value.entries| == log.Length()
                && request.value.entries == log.GetEntries(request.value.prevIndex + 1)
                && log.GetTerm(request.value.prevIndex) == Some(request.value.prevTerm)
                && request.value.term == currentTerm && request.value.leader == config.me
                && request.value.leaderCommit == commitIndex
    {
      if state != Leader {
        return None;
      }
      var next := if peer in nextIndex then nextIndex[peer] else 1;
      if next == 0 {
        return None;
      }
      var prevIndex := next - 1;
      if prevIndex < log.lastIncludedIndex {
        return None;
      }
      match log.GetTerm(prevIndex)
      case None => request := None;
      case Some(prevTerm) =>
        request := Some(AppendRequest(currentTerm, config.me, prevIndex, prevTerm, log.GetEntries(next), commitIndex));
    }

    method DoAppendReply(peer: Id, prevIndex: nat, count: nat, replyTerm: nat, success: bool) returns (ghost n: nat)
      requires Valid() && peer in config.peers
      modifies this, storage, log, stateMachine
      ensures Valid()
      ensures View() == OnAppendReply(old(View()), config, peer, prevIndex, count, replyTerm, success, n)
      ensures old(state) == Leader && replyTerm <= old(currentTerm) && success && count > 0 ==>
                IsMajorityMatch(matchIndex, old(log.View().Length()), config.Majority(), n)
      ensures replyTerm > old(currentTerm) ==> currentTerm == replyTerm && state == Follower && votedFor == None
      ensures replyTerm <= old(currentTerm) ==> unchanged(`currentTerm, `votedFor, `state)
      ensures replyTerm > old(currentTerm) || old(state) != Leader ==>
                unchanged(`nextIndex, `matchIndex, `commitIndex, `lastApplied, log, stateMachine)
      ensures old(state) == Leader && replyTerm <= old(currentTerm) && success && count > 0 ==>
                && matchIndex == old(matchIndex)[peer := prevIndex + count]
                && nextIndex == old(nextIndex)[peer := prevIndex + count + 1]
      ensures old(state) == Leader && replyTerm <= old(currentTerm) && success && count == 0 ==> View() == old(View())
      ensures old(state) == Leader && replyTerm <= old(currentTerm) && !success ==>
                && (old(nextIndex)[peer] > 1 ==> nextIndex == old(nextIndex)[peer := old(nextIndex)[peer] - 1])
                && (old(nextIndex)[peer] <= 1 ==> nextIndex == old(nextIndex)[peer := 1])
                && unchanged(`matchIndex, `commitIndex, `lastApplied, log, stateMachine)
    {
      hide IsMajorityMatch, CommitTo, RecordMatch;
      n := 0;
      if replyTerm > currentTerm {
        DoUpdateTerm(replyTerm);
        return;
      }
      if state != Leader {
        return;
      }
      if success {
        if count > 0 {
          n := DoRecordMatch(peer, prevIndex + count);
        }
      } else {
        nextIndex := nextIndex[peer := if nextIndex[peer] <= 2 then 1 else nextIndex[peer] - 1];
        assert View() == old(View()).(nextIndex := nextIndex);
      }
    }

    method DoRecordMatch(peer: Id, m: nat) returns (ghost n: nat)
      requires Valid() && peer in config.peers && state == Leader
      modifies this, storage, log, stateMachine
      ensures Valid() && View() == CommitTo(RecordMatch(old(View()), peer, m), config, n)
      ensures matchIndex == old(matchIndex)[peer := m] && nextIndex == old(nextIndex)[peer := m + 1]
      ensures unchanged(`currentTerm, `votedFor, `state)
      ensures IsMajorityMatch(matchIndex, old(log.View().Length()), config.Majority(), n)
    {
      hide IsMajorityMatch, CommitTo;
      matchIndex := matchIndex[peer := m];
      nextIndex := nextIndex[peer := matchIndex[peer] + 1];
      assert View() == RecordMatch(old(View()), peer, m);
      n := DoUpdateCommitIndex();
    }

    method MatchValues() returns (values: seq<nat>)
      ensures |values| == |matchIndex|
      ensures forall n: nat :: CountAtLeast(values, n) == |set p | p in matchIndex && matchIndex[p] >= n|
    {
      values := [];
      var todo := matchIndex.Keys;
      while todo != {}
        invariant todo <= matchIndex.Keys
        invariant |values| + |todo| == |matchIndex|
        invariant forall n: nat ::
                    CountAtLeast(values, n) == |set p | p in matchIndex.Keys - todo && matchIndex[p] >= n|
        decreases |todo|
      {
        var p :| p in todo;
        forall n: nat
          ensures CountAtLeast(values + [matchIndex[p]], n)
                  == |set q | q in matchIndex.Keys - (todo - {p}) && matchIndex[q] >= n|
        {
          CountAppend(values, matchIndex[p], n);
          var before := set q | q in matchIndex.Keys - todo && matchIndex[q] >= n;
          var after := set q | q in matchIndex.Keys - (todo - {p}) && matchIndex[q] >= n;
          assert after == if matchIndex[p] >= n then before + {p} else before;
        }
        values := values + [matchIndex[p]];
        todo := todo - {p};
      }
      forall n: nat
        ensures CountAtLeast(values, n) == |set p | p in matchIndex && matchIndex[p] >= n|
      {
        assert (set p | p in matchIndex && matchIndex[p] >= n)
            == (set p | p in matchIndex.Keys - todo && matchIndex[p] >= n);
      }
    }

    method DoUpdateCommitIndex() returns (ghost n: nat)
      requires Valid() && state == Leader
      modifies this`commitIndex, this`lastApplied, storage`log, storage`snapshot, log, stateMachine
      ensures Valid() && View() == CommitTo(old(View()), config, n)
      ensures IsMajorityMatch(matchIndex, old(log.View().Length()), config.Majority(), n)
      ensures commitIndex == if old(commitIndex) < n && old(log.GetTerm(n)) == Some(currentTerm)
                             then n else old(commitIndex)
    {
      hide IsMajorityMatch, SortDescending, ApplyCommitted;
      var values := MatchValues();
      var length := log.Length();
      var matches := SortDescending(values + [length]);
      var majorityIndex := |{config.me} + config.peers| / 2;
      MiddleIsMajorityMatch(matchIndex, config, values, length);
      var candidate := matches[majorityIndex];
      n := candidate;
      if candidate > commitIndex && log.GetTerm(candidate) == Some(currentTerm) {
        commitIndex := candidate;
        DoApplyCommitted();
      }
    }

    method DoSubmitCommand(command: Command) returns (accepted: bool)
      requires Valid()
      modifies log, storage`log
      ensures Valid() && accepted == (state == Leader)
      ensures View() == SubmitCommand(old(View()), command)
      ensures accepted ==> log.entries == old(log.entries) + [Entry(currentTerm, old(log.Length()) + 1, command)]
      ensures !accepted ==> unchanged(log)
    {
      if state != Leader {
        return false;
      }
      log.Append(Entry(currentTerm, log.Length() + 1, command));
      return true;
    }

    method DoApplyCommitted()
      requires Valid() && commitIndex <= log.Length()
      modifies this`lastApplied, storage`log, storage`snapshot, log, stateMachine
      ensures Valid() && View() == ApplyCommitted(old(View()), config.snapshotInterval)
      ensures lastApplied == if old(lastApplied) < commitIndex then commitIndex else old(lastApplied)
      ensures log.Length() == old(log.Length())
    {
      while lastApplied < commitIndex
        invariant Valid() && commitIndex <= log.Length() == old(log.Length())
        invariant lastApplied <= old(lastApplied) || lastApplied <= commitIndex
        invariant old(lastApplied) <= lastApplied
        invariant ApplyCommitted(View(), config.snapshotInterval)
            == ApplyCommitted(old(View()), config.snapshotInterval)
        decreases commitIndex - lastApplied
      {
        ghost var before := View();
        lastApplied := lastApplied + 1;
        var entry := log.GetItem(lastApplied).value;
        var _ := stateMachine.Apply(entry.command);
        assert View() == ApplyNext(before);
        DoCheckSnapshot();
      }
    }

    method DoCheckSnapshot()
      requires Valid() && log.lastIncludedIndex < lastApplied <= log.Length()
      modifies storage`log, storage`snapshot, log
      ensures Valid() && View() == CheckSnapshot(old(View()), config.snapshotInterval)
      ensures log.Length() == old(log.Length())
      ensures if lastApplied - old(log.lastIncludedIndex) < config.snapshotInterval then unchanged(log, storage)
              else && log.lastIncludedIndex == lastApplied
                   && storage.snapshot == Some(Snapshot(stateMachine.store, lastApplied, log.lastIncludedTerm))
    {
      if lastApplied - log.lastIncludedIndex >= config.snapshotInterval {
        var snapshot := stateMachine.TakeSnapshot();
        var lastIndex := lastApplied;
        var lastTerm := log.GetTerm(lastIndex).value;
        log.Compact(lastIndex, lastTerm, snapshot);
      }
    }

    method DoHandleRequestVote(r: VoteRequest) returns (replyTerm: nat, granted: bool)
      requires Valid()
      modifies this, storage
      ensures Valid() && (View(), granted) == HandleRequestVote(old(View()), r)
      ensures replyTerm == currentTerm == if r.term > old(currentTerm) then r.term else old(currentTerm)
      ensures granted <==>
                && r.term >= old(currentTerm)
                && (r.term > old(currentTerm) || old(votedFor) in {None, Some(r.candidate)})
                && var lastTerm := old(log.GetTerm(log.Length())).value;
                   r.lastLogTerm > lastTerm || (r.lastLogTerm == lastTerm && r.lastLogIndex >= old(log.Length()))
      ensures votedFor == if granted then Some(r.candidate) else if r.term > old(currentTerm) then None
          else old(votedFor)
      ensures state == if r.term > old(currentTerm) then Follower else old(state)
    {
      if r.term < currentTerm {
        return currentTerm, false;
      }
      if r.term > currentTerm {
        DoUpdateTerm(r.term);
      }
      var canVote := votedFor == None || votedFor == Some(r.candidate);
      var ourLastIndex := log.Length();
      var ourLastTerm := log.GetTerm(ourLastIndex).value;
      var logIsFresh := r.lastLogTerm > ourLastTerm
                        || (r.lastLogTerm == ourLastTerm && r.lastLogIndex >= ourLastIndex);
      if canVote && logIsFresh {
        votedFor := Some(r.candidate);
        SaveState();
        return currentTerm, true;
      }
      return currentTerm, false;
    }

    method DoHandleAppendEntries(r: AppendRequest) returns (replyTerm: nat, success: bool)
      requires Valid()
      modifies this, storage, log, stateMachine
      ensures Valid() && (View(), success) == HandleAppendEntries(old(View()), r, config.snapshotInterval)
      ensures replyTerm == currentTerm == if r.term > old(currentTerm) then r.term else old(currentTerm)
      ensures state == if r.term > old(currentTerm) then Follower else old(state)
      ensures votedFor == if r.term > old(currentTerm) then None else old(votedFor)
      ensures success <==>
                && r.term >= old(currentTerm)
                && (r.prevIndex == 0
                    || (r.prevIndex <= old(log.Length()) && old(log.GetTerm(r.prevIndex)) == Some(r.prevTerm)))
      ensures !success ==> unchanged(log, stateMachine, `commitIndex, `lastApplied)
      ensures success && r.leaderCommit <= old(commitIndex) ==> commitIndex == old(commitIndex)
      ensures success && r.leaderCommit > old(commitIndex) ==> commitIndex == Min(r.leaderCommit, log.Length())
    {
      if r.term < currentTerm {
        return currentTerm, false;
      }
      if r.term > currentTerm {
        DoUpdateTerm(r.term);
      }
      if !log.MatchLog(r.prevIndex, r.prevTerm) {
        return currentTerm, false;
      }
      DoMergeEntries(r.prevIndex, r.entries);
      if r.leaderCommit > commitIndex {
        commitIndex := Min(r.leaderCommit, log.Length());
        DoApplyCommitted();
      }
      return currentTerm, true;
    }

    method DoMergeEntries(prevIndex: nat, entries: seq<Entry>)
      requires Valid()
      modifies storage`log, log
      ensures Valid()
      ensures View() == old(View()).(log := MergeEntries(old(log.View()), prevIndex, entries))
    {
      for i := 0 to |entries|
        invariant Valid()
        invariant View() == old(View()).(log := log.View())
        invariant MergeEntries(log.View(), prevIndex + i, entries[i..])
            == MergeEntries(old(log.View()), prevIndex, entries)
        invariant log.lastIncludedIndex == old(log.lastIncludedIndex)
      {
        ghost var before := log.View();
        var entry := entries[i];
        var index := prevIndex + 1 + i;
        if index <= log.Length() {
          if log.GetTerm(index) != Some(entry.term) {
            log.Truncate(index);
            log.Append(entry);
          }
        } else {
          log.Append(entry);
        }
        assert log.View() == MergeEntry(before, index, entry);
        assert entries[i..][0] == entry && entries[i..][1..] == entries[i + 1..];
      }
    }
  }
}
