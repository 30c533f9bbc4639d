/** Leader completeness and log matching, from the invariant alone: sections 5.3 and 5.4 of the
    extended Raft paper. */
module RaftCompleteness {
  import opened Wrappers
  import opened RaftLogs
  import opened RaftNodes
  import opened RaftCluster
  import opened RaftInvariants

  lemma MajoritiesMeet(servers: set<Id>, a: set<Id>, b: set<Id>) returns (v: Id)
    requires Majority(servers, a) && Majority(servers, b)
    ensures v in a && v in b
  {
    if a * b == {} {
      assert |a + b| == |a| + |b|;
      SubsetIsSmaller(a + b, servers);
      assert false;
    }
    v :| v in a * b;
  }

  lemma AgreeShorter(a: seq<Entry>, b: seq<Entry>, n: nat, k: nat)
    requires Agree(a, b, n) && k <= n
    ensures Agree(a, b, k)
  {
    assert a[..k] == a[..n][..k] && b[..k] == b[..n][..k];
  }

  lemma AgreeChain(a: seq<Entry>, b: seq<Entry>, c: seq<Entry>, n: nat, k: nat)
    requires Agree(a, b, n) && Agree(b, c, k)
    ensures Agree(a, c, if n <= k then n else k)
  {
    AgreeShorter(a, b, n, if n <= k then n else k);
    AgreeShorter(b, c, k, if n <= k then n else k);
  }

  /** Log matching: two logs whose entries at an index have the same term are equal up to there. */
  lemma LogMatching(h: History, a: seq<Entry>, b: seq<Entry>, i: nat)
    requires LogOk(h, a) && LogOk(h, b)
    requires i < |a| && i < |b| && a[i].term == b[i].term
    ensures Agree(a, b, i + 1)
  {
    assert EntryOk(h, a, i) && EntryOk(h, b, i);
  }

  lemma AgreeAt(a: seq<Entry>, b: seq<Entry>, n: nat, i: nat)
    requires Agree(a, b, n) && i < n
    ensures a[i] == b[i]
  {
    assert a[i] == a[..n][i] && b[i] == b[..n][i];
  }

  /** What the invariant says about the terms that have had a leader. */
  ghost predicate TermOk(h: History, t: nat) {
    && t in h.logs && t in h.elections
    && LogOk(h, h.logs[t])
    && LogOk(h, h.elections[t].log)
    && Agree(h.logs[t], h.elections[t].log, |h.elections[t].log|)
    && (forall i | 0 <= i < |h.elections[t].log| :: h.elections[t].log[i].term < t)
    && (forall i | |h.elections[t].log| <= i < |h.logs[t]| :: h.logs[t][i].term == t)
  }

  ghost predicate TermsOk(h: History) {
    forall t | t in h.logs :: TermOk(h, t)
  }

  lemma InvTerms(s: Cluster)
    requires ElectionsOk(s)
    ensures TermsOk(s.history)
  {
    forall t | t in s.history.logs ensures TermOk(s.history, t) {
      assert TermLogOk(s.history, t) && ElectionOk(s.history, s.servers, t);
      assert s.history.logs[t][..|s.history.elections[t].log|] == s.history.elections[t].log;
    }
  }

  /** Terms never decrease along a log. */
  lemma TermsAscend(h: History, log: seq<Entry>, i: nat, j: nat)
    requires TermsOk(h) && LogOk(h, log)
    requires i <= j < |log|
    ensures log[i].term <= log[j].term
  {
    var t := log[j].term;
    assert EntryOk(h, log, j);
    AgreeAt(log, h.logs[t], j + 1, i);
    AgreeAt(log, h.logs[t], j + 1, j);
    assert TermOk(h, t);
    if i < |h.elections[t].log| {
      AgreeAt(h.logs[t], h.elections[t].log, |h.elections[t].log|, i);
    }
  }

  /** A log at least as fresh as one that has the committed entries has them too, if the leaders
      between the commit and its last term do. */
  lemma FresherLogHasCommitted(h: History, log: seq<Entry>, other: seq<Entry>, t0: nat, n: nat, t: nat)
    requires TermsOk(h) && LogOk(h, log) && LogOk(h, other)
    requires AtLeastAsFresh(log, other)
    requires t0 in h.logs && 1 <= n <= |h.logs[t0]| && h.logs[t0][n - 1].term == t0
    requires Agree(other, h.logs[t0], n)
    requires forall i | 0 <= i < |log| :: log[i].term < t
    requires Carried(h, t0, n, t - 1)
    ensures Agree(log, h.logs[t0], n)
  {
    AgreeAt(other, h.logs[t0], n, n - 1);
    TermsAscend(h, other, n - 1, |other| - 1);
    assert |log| > 0;
    if LastTerm(log) == LastTerm(other) {
      LastTermsMatch(h, log, other);
      LogMatching(h, log, other, |other| - 1);
      AgreeChain(log, other, h.logs[t0], |other|, n);
    } else {
      LaterEntryFollowsCommit(h, log, t0, n, t);
    }
  }

  lemma LastTermsMatch(h: History, log: seq<Entry>, other: seq<Entry>)
    requires LogOk(h, log) && LogOk(h, other)
    requires 0 < |other| <= |log| && LastTerm(log) == LastTerm(other)
    ensures log[|other| - 1].term == other[|other| - 1].term
  {
    var t, k := LastTerm(log), |other| - 1;
    assert EntryOk(h, log, |log| - 1) && EntryOk(h, other, k);
    AgreeAt(log, h.logs[t], |log|, k);
    AgreeAt(other, h.logs[t], |other|, k);
  }

  /** An entry of a term after `t0` comes after everything its leader inherited. */
  lemma LaterEntryFollowsCommit(h: History, log: seq<Entry>, t0: nat, n: nat, t: nat)
    requires TermsOk(h) && LogOk(h, log) && |log| > 0
    requires t0 < LastTerm(log) < t
    requires t0 in h.logs && Carried(h, t0, n, t - 1)
    ensures Agree(log, h.logs[t0], n)
  {
    var u, k := LastTerm(log), |log| - 1;
    assert EntryOk(h, log, k) && TermOk(h, u);
    var e := h.elections[u].log;
    assert Inherits(h, u, t0, n);
    AgreeAt(log, h.logs[u], k + 1, k);
    if k < |e| {
      AgreeAt(h.logs[u], e, |e|, k);
      assert false;
    }
    AgreeChain(log, h.logs[u], e, k + 1, |e|);
    AgreeChain(log, e, h.logs[t0], |e|, n);
  }

  /** Leader completeness: what was committed in a term is in the log with which every later
      leader starts. */
  lemma LeaderCompleteness(s: Cluster, c: Commit, t: nat)
    requires Inv(s) && CommitOk(s.history, s.servers, c)
    requires t in s.history.elections && c.term < t
    ensures Inherits(s.history, t, c.term, c.index)
    decreases t
  {
    hide NodesOk, ElectionsOk, GrantsOk, AcksOk, OutcomesOk, MessagesOk;
    var h := s.history;
    forall u | u in h.elections && c.term < u <= t - 1 ensures Inherits(h, u, c.term, c.index) {
      LeaderCompleteness(s, c, u);
    }
    InvTerms(s);
    VotersHaveCommitted(s, c, t);
  }

  /** The step of the induction: a voter of term `t` that acknowledged the commit. */
  lemma VotersHaveCommitted(s: Cluster, c: Commit, t: nat)
    requires ElectionsOk(s) && GrantsOk(s) && AcksOk(s) && TermsOk(s.history)
    requires CommitOk(s.history, s.servers, c)
    requires t in s.history.elections && c.term < t
    requires Carried(s.history, c.term, c.index, t - 1)
    ensures Inherits(s.history, t, c.term, c.index)
  {
    var h := s.history;
    assert ElectionOk(h, s.servers, t);
    var e := h.elections[t];
    var v := MajoritiesMeet(s.servers, c.quorum, e.quorum);
    assert AckedTo(h, v, c.term, c.index) && Granted(h, v, t, e.leader);
    var a :| a in h.acks && a.node == v && a.term == c.term && c.index <= a.length;
    var b := Ballot(v, t);
    assert GrantOk(s, b);
    BallotCastOnCommitted(h, a, b, c.index);
    FresherLogHasCommitted(h, e.log, h.grants[b].log, c.term, c.index, t);
  }

  lemma BallotCastOnCommitted(h: History, a: Ack, b: Ballot, n: nat)
    requires b in h.grants && AckBeforeBallot(h, a, b)
    requires a.node == b.voter && a.term < b.term && b.term in h.elections && b.voter in h.elections[b.term].quorum
    requires n <= a.length && Carried(h, a.term, n, b.term - 1)
    ensures a.term in h.logs && Agree(h.grants[b].log, h.logs[a.term], n)
  {
  }

  /** The same for the whole log of every later leader. */
  lemma LaterLogsHaveCommitted(s: Cluster, c: Commit, t: nat)
    requires Inv(s) && CommitOk(s.history, s.servers, c)
    requires t in s.history.logs && c.term <= t
    ensures Agree(s.history.logs[t], s.history.logs[c.term], c.index)
  {
    hide NodesOk, ElectionsOk, GrantsOk, AcksOk, OutcomesOk, MessagesOk;
    var h := s.history;
    InvTerms(s);
    if c.term < t {
      assert TermOk(h, t);
      LeaderCompleteness(s, c, t);
      InheritedIsInLog(h, t, c.term, c.index);
    }
  }

  lemma InheritedIsInLog(h: History, t: nat, t0: nat, n: nat)
    requires TermOk(h, t) && Inherits(h, t, t0, n)
    ensures Agree(h.logs[t], h.logs[t0], n)
  {
    var e := h.elections[t].log;
    AgreeChain(h.logs[t], e, h.logs[t0], |e|, n);
  }

  /** Prefixes committed in any two logs agree. */
  lemma CommittedPrefixesAgree(s: Cluster, a: seq<Entry>, m: nat, t: nat, b: seq<Entry>, n: nat, u: nat)
    requires Inv(s)
    requires CommittedPrefix(s.history, a, m, t) && CommittedPrefix(s.history, b, n, u)
    requires m <= n && n <= |b| && m <= |a|
    ensures Agree(a, b, m)
  {
    var h := s.history;
    if m > 0 {
      var c :| c in h.commits && CoveredBy(h, a, m, t, c);
      var d :| d in h.commits && CoveredBy(h, b, n, u, d);
      assert CommitOk(h, s.servers, c) && CommitOk(h, s.servers, d);
      if c.term <= d.term {
        LaterLogsHaveCommitted(s, c, d.term);
      } else {
        LaterLogsHaveCommitted(s, d, c.term);
        assert Agree(h.logs[d.term], h.logs[c.term], d.index);
      }
      var k := if c.term <= d.term then c.index else d.index;
      assert Agree(h.logs[c.term], h.logs[d.term], k);
      AgreeShorter(h.logs[c.term], h.logs[d.term], k, m);
      AgreeShorter(b, h.logs[d.term], n, m);
    }
  }
}
