/** Log compaction on one node: when a node that drops the entries its snapshot covers behaves like
    one that keeps its whole log. */
module RaftCompaction {
  import opened Wrappers
  import opened RaftLogs
  import opened RaftNodes

  /** The node stands for one that has the whole log `full`: it stores the entries after its
      snapshot, the snapshot is the fold of the entries before, and the store is the fold of
      everything it has applied. */
  ghost predicate StandsFor(s: NodeState, full: seq<Entry>) {
    && s.log.Represents(full)
    && s.log.lastIncludedIndex <= s.lastApplied <= s.commitIndex <= |full|
    && s.store == ApplyLog(full[..s.lastApplied])
    && s.snapshot == SnapshotOf(full, s.log.lastIncludedIndex)
  }

  function SnapshotOf(full: seq<Entry>, i: nat): Option<Snapshot>
    requires i <= |full|
  {
    if i == 0 then None else Some(Snapshot(ApplyLog(full[..i]), i, TermOf(full, i)))
  }

  function Whole(full: seq<Entry>): LogState {
    LogState(full, 0, 0)
  }

  /** The same node, had it never compacted. */
  function Uncompacted(s: NodeState, full: seq<Entry>): NodeState {
    s.(log := Whole(full), snapshot := None)
  }

  // ----- The log -----

  lemma RepresentedTerm(log: LogState, full: seq<Entry>, i: nat)
    requires log.Represents(full) && log.lastIncludedIndex <= i <= |full|
    ensures log.Length() == |full| && log.TermAt(i) == TermOf(full, i) == Whole(full).TermAt(i)
    ensures i > log.lastIncludedIndex ==> log.Holds(i) && log.At(i) == full[i - 1]
  {
  }

  lemma SuffixAgrees(log: LogState, full: seq<Entry>, i: nat)
    requires log.Represents(full) && log.lastIncludedIndex <= i <= |full|
    ensures log.From(i + 1) == full[i..] == Whole(full).From(i + 1)
  {
  }

  lemma AppendKeepsRepresenting(log: LogState, full: seq<Entry>, e: Entry)
    requires log.Represents(full)
    ensures log.Append(e).Represents(full + [e])
  {
    assert (full + [e])[log.lastIncludedIndex..] == log.entries + [e];
  }

  lemma TruncateKeepsRepresenting(log: LogState, full: seq<Entry>, i: nat)
    requires log.Represents(full) && log.lastIncludedIndex < i <= |full|
    ensures log.Truncate(i).Represents(full[..i - 1]) && Whole(full).Truncate(i) == Whole(full[..i - 1])
  {
    assert full[..i - 1][log.lastIncludedIndex..] == log.entries[..i - 1 - log.lastIncludedIndex];
  }

  lemma CompactKeepsRepresenting(log: LogState, full: seq<Entry>, i: nat)
    requires log.Represents(full) && log.lastIncludedIndex <= i <= |full|
    ensures log.Compact(i, TermOf(full, i)).Represents(full)
  {
    if log.lastIncludedIndex < i < |full| {
      assert full[i..] == log.entries[i - log.lastIncludedIndex..];
    }
  }

  /** The follower's merge, starting at or above the snapshot, changes the stored entries exactly
      as it would change the whole log. */
  lemma {:induction false} MergeAgrees(log: LogState, full: seq<Entry>, prev: nat, entries: seq<Entry>)
    requires log.Represents(full) && log.lastIncludedIndex <= prev <= |full|
    ensures var w := MergeEntries(Whole(full), prev, entries);
            && w == Whole(w.entries)
            && |w.entries| >= prev + |entries|
            && w.entries[..prev] == full[..prev]
            && MergeEntries(log, prev, entries).Represents(w.entries)
    decreases |entries|
  {
    if entries != [] {
      var e, i := entries[0], prev + 1;
      var w := MergeEntry(Whole(full), i, e);
      assert w == Whole(w.entries);
      if i <= |full| {
        RepresentedTerm(log, full, i);
        TruncateKeepsRepresenting(log, full, i);
        AppendKeepsRepresenting(log.Truncate(i), full[..i - 1], e);
      } else {
        AppendKeepsRepresenting(log, full, e);
      }
      assert w.entries[..prev] == full[..prev];
      MergeAgrees(MergeEntry(log, i, e), w.entries, i, entries[1..]);
      var r := MergeEntries(w, i, entries[1..]).entries;
      assert r[..prev] == r[..i][..prev] == w.entries[..i][..prev] == w.entries[..prev];
    }
  }

  lemma {:induction false} AppendAll(full: seq<Entry>, entries: seq<Entry>)
    ensures MergeEntries(Whole(full), |full|, entries) == Whole(full + entries)
    decreases |entries|
  {
    if entries == [] {
      assert full + [] == full;
    } else {
      AppendAll(full + [entries[0]], entries[1..]);
      assert full + [entries[0]] + entries[1..] == full + entries;
    }
  }

  // ----- Applying and compacting -----

  /** Applying, with whatever snapshots are due on the way, leaves the store the fold of the whole
      log; the node without compaction ends in the same state; and fewer than `interval` applied
      entries are left in the stored log. */
  lemma {:induction false} ApplyAgrees(s: NodeState, full: seq<Entry>, interval: nat, never: nat)
    requires StandsFor(s, full) && never > |full|
    requires 1 <= interval && s.lastApplied - s.log.lastIncludedIndex < interval
    ensures var s' := ApplyCommitted(s, interval);
            && StandsFor(s', full) && s'.lastApplied == s.commitIndex
            && s'.lastApplied - s'.log.lastIncludedIndex < interval
            && Uncompacted(s', full) == ApplyCommitted(Uncompacted(s, full), never)
    decreases s.commitIndex - s.lastApplied
  {
    if s.lastApplied < s.commitIndex {
      hide StandsFor;
      ApplyNextStands(s, full);
      var s1 := ApplyNext(s);
      CheckSnapshotStands(s1, full, interval, never);
      ApplyAgrees(CheckSnapshot(s1, interval), full, interval, never);
    }
  }

  lemma ApplyNextStands(s: NodeState, full: seq<Entry>)
    requires StandsFor(s, full) && s.lastApplied < s.commitIndex
    ensures s.log.Holds(s.lastApplied + 1) && Uncompacted(s, full).log.Holds(s.lastApplied + 1)
    ensures StandsFor(ApplyNext(s), full) && ApplyNext(s).log.Length() == |full|
    ensures Uncompacted(ApplyNext(s), full) == ApplyNext(Uncompacted(s, full))
  {
    var n := s.lastApplied + 1;
    RepresentedTerm(s.log, full, n);
    assert full[..n][..n - 1] == full[..n - 1];
  }

  lemma CheckSnapshotStands(s: NodeState, full: seq<Entry>, interval: nat, never: nat)
    requires StandsFor(s, full) && s.log.lastIncludedIndex < s.lastApplied && s.log.Length() == |full| < never
    requires s.lastApplied - s.log.lastIncludedIndex <= interval && 1 <= interval
    ensures var s' := CheckSnapshot(s, interval);
            && StandsFor(s', full) && s' == s.(log := s'.log, snapshot := s'.snapshot)
            && s'.lastApplied - s'.log.lastIncludedIndex < interval
            && CheckSnapshot(Uncompacted(s, full), never) == Uncompacted(s', full)
  {
    RepresentedTerm(s.log, full, s.lastApplied);
    CompactKeepsRepresenting(s.log, full, s.lastApplied);
  }

  // ----- Handlers -----

  /** A vote is granted or refused as without compaction. */
  lemma VoteAgrees(s: NodeState, full: seq<Entry>, r: VoteRequest)
    requires StandsFor(s, full)
    ensures var (s', granted) := HandleRequestVote(s, r);
            StandsFor(s', full) && (Uncompacted(s', full), granted) == HandleRequestVote(Uncompacted(s, full), r)
  {
    RepresentedTerm(s.log, full, |full|);
    VoteReadsLastEntry(s, Uncompacted(s, full), r);
  }

  lemma VoteReadsLastEntry(s: NodeState, u: NodeState, r: VoteRequest)
    requires u == s.(log := u.log, snapshot := u.snapshot)
    requires u.log.Length() == s.log.Length() && u.log.TermAt(u.log.Length()) == s.log.TermAt(s.log.Length())
    ensures var (s', granted) := HandleRequestVote(s, r);
            && s' == s.(currentTerm := s'.currentTerm, votedFor := s'.votedFor, role := s'.role)
            && HandleRequestVote(u, r) == (s'.(log := u.log, snapshot := u.snapshot), granted)
  {
  }

  /** A leader ships what it would ship without compaction, or nothing if it has dropped the
      entry before the peer's next one. */
  lemma ShippingAgrees(s: NodeState, full: seq<Entry>, c: Config, peer: Id)
    requires StandsFor(s, full)
    ensures var next := if peer in s.nextIndex then s.nextIndex[peer] else 1;
            AppendRequestOf(s, c, peer) == if next <= s.log.lastIncludedIndex then None
                                           else AppendRequestOf(Uncompacted(s, full), c, peer)
  {
    hide StandsFor, AppendRequestOf;
    var next := if peer in s.nextIndex then s.nextIndex[peer] else 1;
    LengthAgrees(s, full);
    if next <= s.log.lastIncludedIndex || |full| + 1 < next {
      NothingShipped(s, c, peer, next);
      NothingShipped(Uncompacted(s, full), c, peer, next);
    } else {
      ShippedEntriesAgree(s.log, full, next);
      ShippingReads(s, Uncompacted(s, full), c, peer, next);
    }
  }

  lemma NothingShipped(s: NodeState, c: Config, peer: Id, next: nat)
    requires next == if peer in s.nextIndex then s.nextIndex[peer] else 1
    ensures next <= s.log.lastIncludedIndex || s.log.Length() + 1 < next ==> AppendRequestOf(s, c, peer) == None
  {
  }

  lemma ShippingReads(s: NodeState, u: NodeState, c: Config, peer: Id, next: nat)
    requires u == s.(log := u.log, snapshot := u.snapshot)
    requires next == if peer in s.nextIndex then s.nextIndex[peer] else 1
    requires s.log.lastIncludedIndex < next && u.log.lastIncludedIndex < next <= s.log.Length() + 1
    requires s.log.Length() == u.log.Length()
    requires s.log.TermAt(next - 1) == u.log.TermAt(next - 1) && s.log.From(next) == u.log.From(next)
    ensures AppendRequestOf(s, c, peer) == AppendRequestOf(u, c, peer)
  {
    assert Ship(s, c, next) == Ship(u, c, next);
    hide Ship;
  }

  lemma LengthAgrees(s: NodeState, full: seq<Entry>)
    requires StandsFor(s, full)
    ensures s.log.Represents(full) && s.log.Length() == |full|
  {
  }

  lemma ShippedEntriesAgree(log: LogState, full: seq<Entry>, next: nat)
    requires log.Represents(full) && log.lastIncludedIndex < next <= |full| + 1
    ensures log.Length() == |full| && log.TermAt(next - 1) == Whole(full).TermAt(next - 1)
    ensures log.From(next) == Whole(full).From(next)
  {
    RepresentedTerm(log, full, next - 1);
    SuffixAgrees(log, full, next - 1);
  }

  // ----- Merging below the snapshot -----

  function MergedWhole(full: seq<Entry>, r: AppendRequest): seq<Entry> {
    MergeEntries(Whole(full), r.prevIndex, r.entries).entries
  }

  ghost predicate Ascending(entries: seq<Entry>) {
    forall i, j | 0 <= i < j < |entries| :: entries[i].term <= entries[j].term
  }

  /** The shipped entries up to index n have the terms they have in `full`. */
  ghost predicate Repeats(full: seq<Entry>, prev: nat, entries: seq<Entry>, n: nat)
    requires n <= |full|
  {
    forall j | 0 <= j < |entries| && prev + j < n :: entries[j].term == full[prev + j].term
  }

  /** Every shipped entry inside the snapshot has the snapshot's term. */
  predicate InsideTerms(log: LogState, prev: nat, entries: seq<Entry>) {
    forall j | 0 <= j < |entries| && prev + j + 1 < log.lastIncludedIndex :: entries[j].term == log.lastIncludedTerm
  }

  /** An entry is shipped that lies past the end of the log or contradicts one it stores. */
  predicate BringsNews(log: LogState, prev: nat, entries: seq<Entry>) {
    || prev + |entries| > log.Length()
    || exists j | 0 <= j < |entries| && log.Holds(prev + j + 1) :: entries[j].term != log.At(prev + j + 1).term
  }

  /** The entries of other terms: each of them is taken for a conflict inside the snapshot. */
  function Unlike(entries: seq<Entry>, term: nat): seq<Entry> {
    if entries == [] then []
    else (if entries[0].term == term then [] else [entries[0]]) + Unlike(entries[1..], term)
  }

  lemma {:induction false} UnlikeIsEmptyIff(entries: seq<Entry>, term: nat)
    ensures Unlike(entries, term) == [] <==> forall j | 0 <= j < |entries| :: entries[j].term == term
    ensures forall e | e in Unlike(entries, term) :: e in entries && e.term != term
  {
    if entries != [] {
      UnlikeIsEmptyIff(entries[1..], term);
      assert entries == [entries[0]] + entries[1..];
    }
  }

  lemma {:induction false} MergeSplits(log: LogState, prev: nat, a: seq<Entry>, b: seq<Entry>)
    ensures MergeEntries(log, prev, a + b) == MergeEntries(MergeEntries(log, prev, a), prev + |a|, b)
    decreases |a|
  {
    if a == [] {
      assert a + b == b;
    } else {
      assert (a + b)[1..] == a[1..] + b;
      MergeSplits(MergeEntry(log, prev + 1, a[0]), prev + 1, a[1..], b);
    }
  }

  /** Inside the snapshot nothing is truncated: an entry of another term goes to the end of the log. */
  lemma {:induction false} InsideMergeAppends(log: LogState, prev: nat, a: seq<Entry>)
    requires prev + |a| <= log.lastIncludedIndex
    ensures MergeEntries(log, prev, a) == log.(entries := log.entries + Unlike(a, log.lastIncludedTerm))
    decreases |a|
  {
    if a == [] {
      assert log.entries + [] == log.entries;
    } else {
      var log1 := MergeEntry(log, prev + 1, a[0]);
      InsideMergeAppends(log1, prev + 1, a[1..]);
      var rest := Unlike(a[1..], log.lastIncludedTerm);
      if a[0].term == log.lastIncludedTerm {
        assert [] + rest == rest;
      } else {
        assert log.entries + [a[0]] + rest == log.entries + ([a[0]] + rest);
      }
    }
  }

  lemma {:induction false} RepeatOnWhole(full: seq<Entry>, prev: nat, a: seq<Entry>)
    requires prev + |a| <= |full| && Repeats(full, prev, a, |full|)
    ensures MergeEntries(Whole(full), prev, a) == Whole(full)
    decreases |a|
  {
    if a != [] {
      assert a[0].term == full[prev].term;
      RepeatOnWhole(full, prev + 1, a[1..]);
    }
  }

  /** What was appended inside the snapshot disappears again when an entry above it brings news. */
  lemma {:induction false} NewsRepairs(base: LogState, full: seq<Entry>, extra: seq<Entry>, prev: nat, b: seq<Entry>)
    requires base.Represents(full) && base.lastIncludedIndex <= prev <= |full| && extra != []
    requires forall j | 0 <= j < |b| :: b[j].term != extra[0].term
    ensures var r := MergeEntries(base.(entries := base.entries + extra), prev, b);
            if BringsNews(base, prev, b) then r == MergeEntries(base, prev, b)
            else r == base.(entries := base.entries + extra) && MergeEntries(Whole(full), prev, b) == Whole(full)
    decreases |b|
  {
    var log := base.(entries := base.entries + extra);
    if b != [] {
      var e, i := b[0], prev + 1;
      if i <= |full| && full[i - 1].term == e.term {
        NewsLater(base, full, prev, b);
        assert log.At(i) == base.At(i) == full[i - 1];
        NewsRepairs(base, full, extra, i, b[1..]);
      } else {
        assert BringsNews(base, prev, b) by {
          if i <= |full| {
            assert base.Holds(prev + 0 + 1) && base.At(i) == full[i - 1];
          }
        }
        assert log.At(i) == if i <= |full| then full[i - 1] else extra[0];
        assert log.Truncate(i) == if i <= |full| then base.Truncate(i) else base;
        assert MergeEntry(log, i, e) == MergeEntry(base, i, e);
      }
    }
  }

  lemma NewsLater(base: LogState, full: seq<Entry>, prev: nat, b: seq<Entry>)
    requires base.Represents(full) && base.lastIncludedIndex <= prev < |full| && b != [] && full[prev].term == b[0].term
    ensures BringsNews(base, prev, b) <==> BringsNews(base, prev + 1, b[1..])
  {
    assert base.At(prev + 1) == full[prev];
    if j :| 0 <= j < |b| && base.Holds(prev + j + 1) && b[j].term != base.At(prev + j + 1).term {
      assert base.Holds(prev + 1 + (j - 1) + 1) && b[1..][j - 1] == b[j];
    }
    if j :| 0 <= j < |b[1..]| && base.Holds(prev + 1 + j + 1) && b[1..][j].term != base.At(prev + 1 + j + 1).term {
      assert base.Holds(prev + (j + 1) + 1) && b[1..][j] == b[j + 1];
    }
  }

  /** The merge below a snapshot, where the shipped entries repeat those the snapshot covers: the
      node stands for the merged whole log exactly when all of them have the snapshot's term or
      something new is shipped; otherwise its log grows, and the whole log does not. */
  lemma MergeBelowSnapshot(log: LogState, full: seq<Entry>, prev: nat, entries: seq<Entry>)
    requires log.Represents(full) && prev < log.lastIncludedIndex && Repeats(full, prev, entries, log.lastIncludedIndex)
    requires Ascending(full) && Ascending(entries)
    ensures var m, w := MergeEntries(log, prev, entries), MergeEntries(Whole(full), prev, entries);
            && w == Whole(w.entries)
            && if InsideTerms(log, prev, entries) || BringsNews(log, prev, entries) then m.Represents(w.entries)
               else m.Length() > |full| && w.entries == full
  {
    var k: nat := if |entries| <= log.lastIncludedIndex - prev then |entries| else log.lastIncludedIndex - prev;
    assert entries == entries[..k] + entries[k..];
    hide *;
    MergeAroundSnapshot(log, full, prev, entries[..k], entries[k..]);
  }

  lemma MergeAroundSnapshot(log: LogState, full: seq<Entry>, prev: nat, a: seq<Entry>, b: seq<Entry>)
    requires log.Represents(full) && Repeats(full, prev, a + b, log.lastIncludedIndex)
    requires Ascending(full) && Ascending(a + b)
    requires prev + |a| <= log.lastIncludedIndex && (b == [] || prev + |a| == log.lastIncludedIndex)
    ensures var m, w := MergeEntries(log, prev, a + b), MergeEntries(Whole(full), prev, a + b);
            && w == Whole(w.entries)
            && if InsideTerms(log, prev, a + b) || BringsNews(log, prev, a + b) then m.Represents(w.entries)
               else m.Length() > |full| && w.entries == full
  {
    hide *;
    var extra := Unlike(a, log.lastIncludedTerm);
    InsideTermsIff(log, full, prev, a, b);
    NewsIsAbove(log, prev, a, b);
    SplitMerges(log, full, prev, a, b);
    NothingUnlikeAbove(log, full, prev, a, b);
    if extra == [] {
      MergeWithoutExtra(log, full, extra, prev + |a|, b);
    } else {
      MergeAfterExtra(log, full, extra, prev + |a|, b);
    }
  }

  lemma MergeWithoutExtra(log: LogState, full: seq<Entry>, extra: seq<Entry>, prev: nat, b: seq<Entry>)
    requires log.Represents(full) && extra == [] && (b == [] || prev == log.lastIncludedIndex)
    ensures var w := MergeEntries(Whole(full), prev, b);
            w == Whole(w.entries) && MergeEntries(log.(entries := log.entries + extra), prev, b).Represents(w.entries)
  {
    assert log.(entries := log.entries + extra) == log;
    if b != [] {
      MergeAgrees(log, full, prev, b);
    }
  }

  lemma MergeAfterExtra(log: LogState, full: seq<Entry>, extra: seq<Entry>, prev: nat, b: seq<Entry>)
    requires log.Represents(full) && extra != [] && (b == [] || prev == log.lastIncludedIndex)
    requires forall e, j | e in extra && 0 <= j < |b| :: e.term < b[j].term
    ensures var m, w := MergeEntries(log.(entries := log.entries + extra), prev, b), MergeEntries(Whole(full), prev, b);
            && w == Whole(w.entries)
            && if b != [] && BringsNews(log, prev, b) then m.Represents(w.entries)
                else m.Length() > |full| && w.entries == full
  {
    if b != [] {
      hide BringsNews, MergeEntries;
      assert extra[0] in extra;
      MergeAgrees(log, full, prev, b);
      NewsRepairs(log, full, extra, prev, b);
    }
  }

  /** What is shipped up to the snapshot changes nothing in the whole log, and only adds to the stored
      entries. */
  lemma SplitMerges(log: LogState, full: seq<Entry>, prev: nat, a: seq<Entry>, b: seq<Entry>)
    requires log.Represents(full) && prev + |a| <= log.lastIncludedIndex
    requires Repeats(full, prev, a + b, log.lastIncludedIndex)
    ensures MergeEntries(log, prev, a + b)
            == MergeEntries(log.(entries := log.entries + Unlike(a, log.lastIncludedTerm)), prev + |a|, b)
    ensures MergeEntries(Whole(full), prev, a + b) == MergeEntries(Whole(full), prev + |a|, b)
  {
    assert forall j | 0 <= j < |a| :: (a + b)[j] == a[j];
    hide MergeEntries;
    MergeSplits(log, prev, a, b);
    MergeSplits(Whole(full), prev, a, b);
    InsideMergeAppends(log, prev, a);
    RepeatOnWhole(full, prev, a);
  }

  lemma NothingMerged(log: LogState, full: seq<Entry>, prev: nat)
    ensures MergeEntries(log, prev, []) == log && MergeEntries(Whole(full), prev, []) == Whole(full)
  {
  }

  lemma InsideTermsIff(log: LogState, full: seq<Entry>, prev: nat, a: seq<Entry>, b: seq<Entry>)
    requires log.Represents(full) && Repeats(full, prev, a + b, log.lastIncludedIndex)
    requires prev + |a| <= log.lastIncludedIndex && (b == [] || prev + |a| == log.lastIncludedIndex)
    ensures InsideTerms(log, prev, a + b) <==> Unlike(a, log.lastIncludedTerm) == []
  {
    hide Unlike, InsideTerms, LogState.Represents, Repeats;
    UnlikeIsEmptyIff(a, log.lastIncludedTerm);
    if InsideTerms(log, prev, a + b) {
      forall j | 0 <= j < |a| ensures a[j].term == log.lastIncludedTerm {
        assert (a + b)[j] == a[j];
        TermInside(log, full, prev, a + b, j);
      }
    } else {
      var j := UnlikeInside(log, prev, a + b);
      assert (a + b)[j] == a[j];
    }
  }

  lemma TermInside(log: LogState, full: seq<Entry>, prev: nat, entries: seq<Entry>, j: nat)
    requires log.Represents(full) && Repeats(full, prev, entries, log.lastIncludedIndex)
    requires InsideTerms(log, prev, entries) && j < |entries| && prev + j < log.lastIncludedIndex
    ensures entries[j].term == log.lastIncludedTerm
  {
    assert entries[j].term == full[prev + j].term;
  }

  lemma UnlikeInside(log: LogState, prev: nat, entries: seq<Entry>) returns (j: nat)
    requires !InsideTerms(log, prev, entries)
    ensures j < |entries| && prev + j + 1 < log.lastIncludedIndex && entries[j].term != log.lastIncludedTerm
  {
    j :| j < |entries| && prev + j + 1 < log.lastIncludedIndex && entries[j].term != log.lastIncludedTerm;
  }

  lemma NewsIsAbove(log: LogState, prev: nat, a: seq<Entry>, b: seq<Entry>)
    requires prev + |a| <= log.lastIncludedIndex && (b == [] || prev + |a| == log.lastIncludedIndex)
    ensures BringsNews(log, prev, a + b) <==> b != [] && BringsNews(log, prev + |a|, b)
  {
    var entries := a + b;
    if j :| 0 <= j < |entries| && log.Holds(prev + j + 1) && entries[j].term != log.At(prev + j + 1).term {
      assert log.Holds(prev + |a| + (j - |a|) + 1) && b[j - |a|] == entries[j];
    }
    if j :| 0 <= j < |b| && log.Holds(prev + |a| + j + 1) && b[j].term != log.At(prev + |a| + j + 1).term {
      assert log.Holds(prev + (|a| + j) + 1) && b[j] == entries[|a| + j];
    }
  }

  /** Terms ascend, so no entry above the snapshot has the term of one taken for a conflict. */
  lemma NothingUnlikeAbove(log: LogState, full: seq<Entry>, prev: nat, a: seq<Entry>, b: seq<Entry>)
    requires log.Represents(full) && Repeats(full, prev, a + b, log.lastIncludedIndex)
    requires Ascending(full) && Ascending(a + b)
    requires b == [] || prev + |a| == log.lastIncludedIndex
    ensures forall e, j | e in Unlike(a, log.lastIncludedTerm) && 0 <= j < |b| :: e.term < b[j].term
  {
    UnlikeIsEmptyIff(a, log.lastIncludedTerm);
    if a != [] && b != [] {
      LastInside(log, full, prev, a, b);
    }
    hide *;
    forall e, j | e in Unlike(a, log.lastIncludedTerm) && 0 <= j < |b| ensures e.term < b[j].term {
      var i :| 0 <= i < |a| && a[i] == e;
      AscendingAround(a, b, i, j);
    }
  }

  lemma LastInside(log: LogState, full: seq<Entry>, prev: nat, a: seq<Entry>, b: seq<Entry>)
    requires log.Represents(full) && Repeats(full, prev, a + b, log.lastIncludedIndex)
    requires a != [] && prev + |a| == log.lastIncludedIndex
    ensures a[|a| - 1].term == log.lastIncludedTerm
  {
    assert (a + b)[|a| - 1] == a[|a| - 1];
  }

  lemma AscendingAround(a: seq<Entry>, b: seq<Entry>, i: nat, j: nat)
    requires Ascending(a + b) && i < |a| && j < |b|
    ensures a[i].term <= a[|a| - 1].term <= b[j].term
  {
    var entries := a + b;
    assert entries[i] == a[i] && entries[|a| - 1] == a[|a| - 1] && entries[|a| + j] == b[j];
  }

  // ----- AppendEntries -----

  /** What a leader of the node's term or a later one ships: terms that do not fall, and no
      contradiction to what the node has committed. */
  ghost predicate IsHonest(s: NodeState, full: seq<Entry>, r: AppendRequest) {
    && s.commitIndex <= |full|
    && (0 < r.prevIndex <= s.commitIndex ==> r.prevTerm == TermOf(full, r.prevIndex))
    && Repeats(full, r.prevIndex, r.entries, s.commitIndex)
    && Ascending(r.entries)
    && forall e | e in r.entries :: (r.prevIndex > 0 ==> r.prevTerm <= e.term) && e.term <= r.term
  }

  /** The guard a node can compute from its log and the request: the request is refused, or asks about
      nothing of another term inside the snapshot, or brings something new. */
  predicate IsHarmless(log: LogState, r: AppendRequest) {
    || !log.Matches(r.prevIndex, r.prevTerm)
    || InsideTerms(log, r.prevIndex, r.entries)
    || BringsNews(log, r.prevIndex, r.entries)
  }

  /** The whole log has ascending terms, none of them past the node's. */
  ghost predicate InTerm(s: NodeState, full: seq<Entry>) {
    Ascending(full) && forall e | e in full :: e.term <= s.currentTerm
  }

  predicate IsAccepted(s: NodeState, r: AppendRequest) {
    r.term >= s.currentTerm && s.log.Matches(r.prevIndex, r.prevTerm)
  }

  /** What a node with a snapshot accepts, one without accepts too; and inside the snapshot it accepts
      only index 0 and entries of the snapshot's term. */
  lemma AcceptedByWhole(s: NodeState, full: seq<Entry>, r: AppendRequest)
    requires StandsFor(s, full) && IsHonest(s, full, r) && s.log.Matches(r.prevIndex, r.prevTerm)
    ensures r.prevIndex <= |full| && s.log.Length() == |full| && Whole(full).Matches(r.prevIndex, r.prevTerm)
    ensures 0 < r.prevIndex < s.log.lastIncludedIndex && Ascending(full) ==> InsideTerms(s.log, r.prevIndex, r.entries)
  {
    if r.prevIndex >= s.log.lastIncludedIndex {
      if r.prevIndex <= |full| {
        RepresentedTerm(s.log, full, r.prevIndex);
      }
    } else if r.prevIndex > 0 && Ascending(full) {
      forall j | 0 <= j < |r.entries| && r.prevIndex + j + 1 < s.log.lastIncludedIndex
        ensures r.entries[j].term == s.log.lastIncludedTerm
      {
        assert full[r.prevIndex - 1].term <= full[r.prevIndex + j].term <= full[s.log.lastIncludedIndex - 1].term;
      }
    }
  }

  /** Merging what agrees with the first n entries keeps them. */
  lemma MergeKeepsPrefix(full: seq<Entry>, prev: nat, entries: seq<Entry>, n: nat)
    requires prev <= |full| && n <= |full| && Repeats(full, prev, entries, n)
    ensures var w := MergeEntries(Whole(full), prev, entries);
            w == Whole(w.entries) && n <= |w.entries| && prev <= |w.entries| && w.entries[..n] == full[..n]
  {
    var k: nat := if prev >= n then 0 else if |entries| <= n - prev then |entries| else n - prev;
    assert entries == entries[..k] + entries[k..];
    hide *;
    MergeKeepsPrefixAround(full, prev, entries[..k], entries[k..], n);
  }

  lemma MergeKeepsPrefixAround(full: seq<Entry>, prev: nat, a: seq<Entry>, b: seq<Entry>, n: nat)
    requires prev <= |full| && n <= |full| && Repeats(full, prev, a + b, n)
    requires prev + |a| <= n || a == []
    requires b == [] || prev + |a| >= n
    ensures var w := MergeEntries(Whole(full), prev, a + b);
            w == Whole(w.entries) && n <= |w.entries| && prev <= |w.entries| && w.entries[..n] == full[..n]
  {
    assert forall j | 0 <= j < |a| :: (a + b)[j] == a[j];
    hide MergeEntries;
    MergeSplits(Whole(full), prev, a, b);
    RepeatOnWhole(full, prev, a);
    if b == [] {
      NothingMerged(Whole(full), full, prev + |a|);
    } else {
      MergeAgrees(Whole(full), full, prev + |a|, b);
      ShorterPrefix(MergeEntries(Whole(full), prev + |a|, b).entries, full, prev + |a|, n);
    }
  }

  lemma ShorterPrefix(a: seq<Entry>, b: seq<Entry>, n: nat, k: nat)
    requires k <= n <= |a| && n <= |b| && a[..n] == b[..n]
    ensures a[..k] == b[..k]
  {
    assert a[..k] == a[..n][..k] && b[..k] == b[..n][..k];
  }

  /** An accepted and harmless AppendEntries leaves the log representing the merged whole log; any other
      accepted one leaves it longer than the whole log, which has not changed. */
  lemma MergeRepresentsIff(s: NodeState, full: seq<Entry>, r: AppendRequest)
    requires StandsFor(s, full) && InTerm(s, full) && IsHonest(s, full, r) && s.log.Matches(r.prevIndex, r.prevTerm)
    ensures var m := MergeEntries(s.log, r.prevIndex, r.entries);
            && MergeEntries(Whole(full), r.prevIndex, r.entries) == Whole(MergedWhole(full, r))
            && if IsHarmless(s.log, r) then m.Represents(MergedWhole(full, r))
               else m.Length() > |full| && MergedWhole(full, r) == full
  {
    AcceptedByWhole(s, full, r);
    if r.prevIndex >= s.log.lastIncludedIndex {
      MergeAgrees(s.log, full, r.prevIndex, r.entries);
      assert InsideTerms(s.log, r.prevIndex, r.entries);
    } else {
      MergeBelowSnapshot(s.log, full, r.prevIndex, r.entries);
    }
  }

  lemma MergedStands(s: NodeState, full: seq<Entry>, r: AppendRequest)
    requires StandsFor(s, full) && IsHonest(s, full, r) && r.prevIndex <= |full|
    requires MergeEntries(s.log, r.prevIndex, r.entries).Represents(MergedWhole(full, r))
    ensures var s' := s.(log := MergeEntries(s.log, r.prevIndex, r.entries));
            StandsFor(s', MergedWhole(full, r)) && s'.log.Length() == |MergedWhole(full, r)|
    ensures s.commitIndex <= |MergedWhole(full, r)|
  {
    var w := MergedWhole(full, r);
    MergeKeepsPrefix(full, r.prevIndex, r.entries, s.commitIndex);
    MergeKeepsSnapshot(s.log, r.prevIndex, r.entries);
    SamePrefixes(full, w, s.commitIndex, s.lastApplied);
    SamePrefixes(full, w, s.commitIndex, s.log.lastIncludedIndex);
  }

  lemma AcceptedAgrees(s: NodeState, full: seq<Entry>, r: AppendRequest, interval: nat, never: nat)
    requires StandsFor(s, full) && 1 <= interval && s.lastApplied - s.log.lastIncludedIndex < interval
    requires r.prevIndex <= |full| && IsHonest(s, full, r)
    requires r.term >= s.currentTerm && s.log.Matches(r.prevIndex, r.prevTerm)
    requires Whole(full).Matches(r.prevIndex, r.prevTerm)
    requires MergeEntries(s.log, r.prevIndex, r.entries).Represents(MergedWhole(full, r))
    requires MergeEntries(Whole(full), r.prevIndex, r.entries) == Whole(MergedWhole(full, r))
    requires never > |MergedWhole(full, r)| + |full|
    ensures var (s', ok) := HandleAppendEntries(s, r, interval);
            var (u', ok') := HandleAppendEntries(Uncompacted(s, full), r, never);
            && ok && ok'
            && StandsFor(s', MergedWhole(full, r))
            && Uncompacted(s', MergedWhole(full, r)) == u'
            && s'.lastApplied - s'.log.lastIncludedIndex < interval
  {
    hide MergeEntries, StandsFor, IsHonest, Ascending, LogState.Represents, LogState.Matches;
    var s1 := if r.term > s.currentTerm then UpdateTerm(s, r.term) else s;
    var w := MergedWhole(full, r);
    MergedStands(s, full, r);
    MergeKeepsSnapshot(s.log, r.prevIndex, r.entries);
    var s2 := s1.(log := MergeEntries(s.log, r.prevIndex, r.entries));
    StandsInTerm(s.(log := s2.log), s2, w);
    if r.leaderCommit > s.commitIndex {
      StandsCommitted(s2, w, Min(r.leaderCommit, |w|));
      ApplyAgrees(s2.(commitIndex := Min(r.leaderCommit, |w|)), w, interval, never);
    }
  }

  lemma StandsInTerm(s: NodeState, s': NodeState, full: seq<Entry>)
    requires StandsFor(s, full)
    requires s' == s.(currentTerm := s'.currentTerm, votedFor := s'.votedFor, role := s'.role)
    ensures StandsFor(s', full)
  {
  }

  lemma StandsCommitted(s: NodeState, full: seq<Entry>, k: nat)
    requires StandsFor(s, full) && s.commitIndex <= k <= |full|
    ensures StandsFor(s.(commitIndex := k), full)
  {
  }

  lemma SamePrefixes(a: seq<Entry>, b: seq<Entry>, n: nat, k: nat)
    requires k <= n <= |a| && n <= |b| && a[..n] == b[..n]
    ensures a[..k] == b[..k] && TermOf(a, k) == TermOf(b, k) && SnapshotOf(a, k) == SnapshotOf(b, k)
  {
    assert a[..k] == a[..n][..k] && b[..k] == b[..n][..k];
    if k > 0 {
      assert a[k - 1] == a[..n][k - 1] && b[k - 1] == b[..n][k - 1];
    }
  }

  /** The whole log after an AppendEntries. */
  function Appended(s: NodeState, full: seq<Entry>, r: AppendRequest): seq<Entry> {
    if IsAccepted(s, r) then MergedWhole(full, r) else full
  }

  /** A harmless AppendEntries, below the snapshot or not, leaves the node standing for its whole log; if
      it is accepted, a node that never compacts accepts it too and ends in the same state. */
  lemma AppendAgrees(s: NodeState, full: seq<Entry>, r: AppendRequest, interval: nat, never: nat)
    requires StandsFor(s, full) && 1 <= interval && s.lastApplied - s.log.lastIncludedIndex < interval
    requires InTerm(s, full) && never > |MergedWhole(full, r)| + |full|
    requires r.term >= s.currentTerm ==> IsHonest(s, full, r) && IsHarmless(s.log, r)
    ensures var (s', ok) := HandleAppendEntries(s, r, interval);
            var (u', ok') := HandleAppendEntries(Uncompacted(s, full), r, never);
            && ok == IsAccepted(s, r)
            && StandsFor(s', Appended(s, full, r))
            && (ok ==> ok' && Uncompacted(s', Appended(s, full, r)) == u')
            && (!ok && (r.term < s.currentTerm || r.prevIndex >= s.log.lastIncludedIndex) ==>
                  !ok' && Uncompacted(s', full) == u')
            && s'.lastApplied - s'.log.lastIncludedIndex < interval
  {
    hide StandsFor, InTerm, IsHonest, IsHarmless, HandleAppendEntries, MergeEntries, LogState.Matches;
    if IsAccepted(s, r) {
      AcceptedByWhole(s, full, r);
      MergeRepresentsIff(s, full, r);
      AcceptedAgrees(s, full, r, interval, never);
    } else {
      RefusedAgrees(s, full, r, interval, never);
    }
  }

  lemma RefusedAgrees(s: NodeState, full: seq<Entry>, r: AppendRequest, interval: nat, never: nat)
    requires StandsFor(s, full) && !IsAccepted(s, r)
    ensures var (s', ok) := HandleAppendEntries(s, r, interval);
            !ok && StandsFor(s', full) && s'.log == s.log && s'.lastApplied == s.lastApplied
    ensures r.term < s.currentTerm || r.prevIndex >= s.log.lastIncludedIndex ==>
              HandleAppendEntries(Uncompacted(s, full), r, never)
              == (Uncompacted(HandleAppendEntries(s, r, interval).0, full), false)
  {
    hide MergeEntries, SnapshotOf, ApplyLog;
    assert s.log.Length() == |full|;
    if s.log.lastIncludedIndex <= r.prevIndex <= |full| {
      RepresentedTerm(s.log, full, r.prevIndex);
    }
  }

  lemma {:induction false} ApplyKeepsLength(s: NodeState, interval: nat)
    requires s.log.lastIncludedIndex <= s.lastApplied && s.commitIndex <= s.log.Length()
    ensures ApplyCommitted(s, interval).log.Length() == s.log.Length()
    decreases s.commitIndex - s.lastApplied
  {
    if s.lastApplied < s.commitIndex {
      ApplyKeepsLength(CheckSnapshot(ApplyNext(s), interval), interval);
    }
  }

  /** An AppendEntries of an honest leader leaves a node standing for its whole log exactly when it is
      refused, or every shipped entry inside the snapshot has the snapshot's term, or it brings
      something new. Otherwise it starts at index 0, and the node takes entries it has already compacted
      for new ones: its log grows, though nothing new was shipped. */
  lemma AppendIsHarmlessIff(s: NodeState, full: seq<Entry>, r: AppendRequest, interval: nat)
    requires StandsFor(s, full) && 1 <= interval && s.lastApplied - s.log.lastIncludedIndex < interval
    requires InTerm(s, full) && IsHonest(s, full, r)
    ensures var (s', ok) := HandleAppendEntries(s, r, interval);
            && (StandsFor(s', Appended(s, full, r)) <==>
                !IsAccepted(s, r) || InsideTerms(s.log, r.prevIndex, r.entries)
                || BringsNews(s.log, r.prevIndex, r.entries))
            && ok == IsAccepted(s, r)
            && (ok && r.prevIndex > 0 ==> StandsFor(s', Appended(s, full, r)))
            && (!StandsFor(s', Appended(s, full, r)) ==> Appended(s, full, r) == full && s'.log.Length() > |full|)
  {
    if IsAccepted(s, r) {
      AcceptedByWhole(s, full, r);
      assert 0 < r.prevIndex ==> InsideTerms(s.log, r.prevIndex, r.entries);
    }
    if r.term < s.currentTerm || IsHarmless(s.log, r) {
      AppendAgrees(s, full, r, interval, |MergedWhole(full, r)| + |full| + 1);
    } else {
      MergeRepresentsIff(s, full, r);
      HandledLength(s, r, interval);
      OtherLengthStandsNot(HandleAppendEntries(s, r, interval).0, full);
    }
  }

  lemma HandledLength(s: NodeState, r: AppendRequest, interval: nat)
    requires s.log.lastIncludedIndex <= s.lastApplied && IsAccepted(s, r)
    ensures var (s', ok) := HandleAppendEntries(s, r, interval);
            ok && s'.log.Length() == MergeEntries(s.log, r.prevIndex, r.entries).Length()
  {
    hide MergeEntries, LogState.Matches;
    var s1 := if r.term > s.currentTerm then UpdateTerm(s, r.term) else s;
    MergeKeepsSnapshot(s.log, r.prevIndex, r.entries);
    var s2 := s1.(log := MergeEntries(s.log, r.prevIndex, r.entries));
    if r.leaderCommit > s2.commitIndex {
      ApplyKeepsLength(s2.(commitIndex := Min(r.leaderCommit, s2.log.Length())), interval);
    }
  }

  lemma OtherLengthStandsNot(s: NodeState, full: seq<Entry>)
    ensures s.log.Length() != |full| ==> !StandsFor(s, full)
  {
  }

  /** A log of terms 1 and 2, wholly compacted, that receives its own two entries again: it takes
      the first one for a conflict, cannot truncate, and appends it a second time. With a third entry
      shipped along, the second copy is overwritten. */
  lemma RepeatCorruptsCompactedLog(s: NodeState, command: Command, interval: nat)
    requires s.currentTerm == 2 && s.log == LogState([], 2, 2) && s.lastApplied == s.commitIndex == 2 && interval >= 1
    ensures var full := [Entry(1, 1, Get("x")), Entry(2, 2, Get("y"))];
            var e := Entry(2, 3, command);
            var again := AppendRequest(2, NodeId("a"), 0, 0, full, 0);
            && s.log.Represents(full)
            && HandleAppendEntries(s, again, interval) == (s.(log := LogState([full[0]], 2, 2)), true)
            && HandleAppendEntries(s, again.(entries := full + [e]), interval) == (s.(log := LogState([e], 2, 2)), true)
  {
    var e1, e2, e := Entry(1, 1, Get("x")), Entry(2, 2, Get("y")), Entry(2, 3, command);
    assert [e1, e2] + [e] == [e1, e2, e];
    RepeatMerged(e1, e2, e);
    hide MergeEntries;
  }

  lemma RepeatMerged(e1: Entry, e2: Entry, e: Entry)
    requires e1.term == 1 && e2.term == 2 && e.term == 2
    ensures MergeEntries(LogState([], 2, 2), 0, [e1, e2]) == LogState([e1], 2, 2)
    ensures MergeEntries(LogState([], 2, 2), 0, [e1, e2, e]) == LogState([e], 2, 2)
  {
    var log, grown := LogState([], 2, 2), LogState([e1], 2, 2);
    assert [e1, e2][1..] == [e2] && [e2][1..] == [];
    assert [e1, e2, e][1..] == [e2, e] && [e2, e][1..] == [e] && [e][1..] == [];
    assert MergeEntry(log, 1, e1) == grown && MergeEntry(grown, 2, e2) == grown
        && MergeEntry(grown, 3, e) == LogState([e], 2, 2);
    assert MergeEntries(grown, 1, [e2]) == MergeEntries(grown, 2, []) == grown;
    assert MergeEntries(grown, 1, [e2, e]) == MergeEntries(grown, 2, [e]) == MergeEntries(LogState([e], 2, 2), 3, []);
  }
}
