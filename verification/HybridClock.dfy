/** The hybrid logical clock (hybrid_clock.py), and what its timestamps mean over whole runs of
    nodes that exchange messages while their physical clocks read anything at all. */
module HybridClocks {
  import opened Wrappers

  datatype Timestamp = Timestamp(physical: int, logical: int)

  const ZERO := Timestamp(0, 0)

  predicate Less(a: Timestamp, b: Timestamp) {
    if a.physical != b.physical then a.physical < b.physical else a.logical < b.logical
  }

  function Max(x: int, y: int): int {
    if x >= y then x else y
  }

  /** The clock after a local event or a send. */
  function Tick(clock: Timestamp, reading: int): (ts: Timestamp)
    ensures Less(clock, ts) && ts.physical == Max(clock.physical, reading)
    ensures ts.logical != 0 && clock.logical >= 0 ==> ts == Timestamp(clock.physical, clock.logical + 1)
  {
    if reading > clock.physical then Timestamp(reading, 0) else Timestamp(clock.physical, clock.logical + 1)
  }

  /** The clock after the receipt of a message. */
  function Merge(clock: Timestamp, message: Timestamp, reading: int): (ts: Timestamp)
    ensures Less(clock, ts) && Less(message, ts)
    ensures ts.physical == Max(Max(clock.physical, message.physical), reading)
    ensures ts.logical != 0 && clock.logical >= 0 && message.logical >= 0 ==>
              || ts == Timestamp(clock.physical, clock.logical + 1)
              || ts == Timestamp(message.physical, message.logical + 1)
  {
    var latest := Max(Max(clock.physical, message.physical), reading);
    if latest == clock.physical && latest == message.physical then
      Timestamp(clock.physical, Max(clock.logical, message.logical) + 1)
    else if latest == clock.physical then Timestamp(clock.physical, clock.logical + 1)
    else if latest == message.physical then Timestamp(message.physical, message.logical + 1)
    else Timestamp(reading, 0)
  }

  class HybridLogicalClock {
    var physical: int
    var logical: int

    function Clock(): Timestamp
      reads this
    {
      Timestamp(physical, logical)
    }

    constructor ()
      ensures Clock() == ZERO
    {
      physical, logical := 0, 0;
    }

    method Now(reading: int) returns (ts: Timestamp)
      modifies this
      ensures Clock() == Tick(old(Clock()), reading) && ts == Clock()
    {
      if reading > physical {
        physical := reading;
        logical := 0;
      } else {
        logical := logical + 1;
      }
      return Timestamp(physical, logical);
    }

    method Receive(message: Timestamp, reading: int) returns (ts: Timestamp)
      modifies this
      ensures Clock() == Merge(old(Clock()), message, reading) && ts == Clock()
    {
      var maxPhysical := Max(Max(physical, message.physical), reading);
      if maxPhysical == physical && maxPhysical == message.physical {
        logical := Max(logical, message.logical) + 1;
      } else if maxPhysical == physical {
        logical := logical + 1;
      } else if maxPhysical == message.physical {
        physical := message.physical;
        logical := message.logical + 1;
      } else {
        physical := reading;
        logical := 0;
      }
      return Timestamp(physical, logical);
    }
  }

  // ----- Runs -----

  /** One event of a node, with what its physical clock read; `from` is the event that sent the
      message received here, if any. */
  datatype Event = Event(node: nat, reading: int, from: Option<nat>)

  type Run = run: seq<Event> | MessagesComeLater(run) witness []

  predicate MessagesComeLater(run: seq<Event>) {
    forall i | 0 <= i < |run| && run[i].from.Some? :: run[i].from.value < i
  }

  /** The clock of a node after the first i events of the run. */
  function ClockAt(run: Run, i: nat, node: nat): Timestamp
    requires i <= |run|
    decreases i
  {
    if i == 0 then ZERO
    else
      var e, clock := run[i - 1], ClockAt(run, i - 1, node);
      if e.node != node then clock
      else match e.from
           case None => Tick(clock, e.reading)
           case Some(s) => Merge(clock, ClockAt(run, s + 1, run[s].node), e.reading)
  }

  /** The timestamp event i is given. */
  function Stamp(run: Run, i: nat): Timestamp
    requires i < |run|
  {
    ClockAt(run, i + 1, run[i].node)
  }

  // ----- Happens-before -----

  /** j is the next event of i's node, or the receipt of a message i sent. */
  ghost predicate Precedes(run: Run, i: nat, j: nat) {
    && i < j < |run|
    && (run[j].from == Some(i) || (run[i].node == run[j].node && forall k | i < k < j :: run[k].node != run[i].node))
  }

  /** A causal chain: events each of which directly precedes the next. */
  ghost predicate IsChain(run: Run, chain: seq<nat>) {
    && chain != []
    && (forall k | 0 <= k < |chain| :: chain[k] < |run|)
    && forall k | 0 < k < |chain| :: Precedes(run, chain[k - 1], chain[k])
  }

  ghost predicate HappensBefore(run: Run, i: nat, j: nat) {
    exists chain :: IsChain(run, chain) && |chain| > 1 && chain[0] == i && chain[|chain| - 1] == j
  }

  // ----- One event -----

  /** Between two events of a node its clock stands still. */
  lemma {:induction false} ClockStandsStill(run: Run, i: nat, j: nat, node: nat)
    requires i <= j <= |run| && forall k | i <= k < j :: run[k].node != node
    ensures ClockAt(run, j, node) == ClockAt(run, i, node)
    decreases j
  {
    if i < j {
      ClockStandsStill(run, i, j - 1, node);
    }
  }

  lemma PrecedesIsLess(run: Run, i: nat, j: nat)
    requires Precedes(run, i, j)
    ensures Less(Stamp(run, i), Stamp(run, j))
  {
    if run[j].from != Some(i) {
      ClockStandsStill(run, i + 1, j, run[i].node);
    }
  }

  lemma {:induction false} LogicalIsNatural(run: Run, i: nat, node: nat)
    requires i <= |run|
    ensures ClockAt(run, i, node).logical >= 0 && ClockAt(run, i, node).physical >= 0
    decreases i
  {
    if i > 0 {
      LogicalIsNatural(run, i - 1, node);
      var e := run[i - 1];
      if e.from.Some? {
        LogicalIsNatural(run, e.from.value + 1, run[e.from.value].node);
      }
    }
  }

  /** Every clock value is zero or the timestamp of the node's latest event. */
  lemma {:induction false} ClockIsLastStamp(run: Run, i: nat, node: nat) returns (last: Option<nat>)
    requires i <= |run|
    ensures last.None? ==> ClockAt(run, i, node) == ZERO
    ensures last.Some? ==> last.value < i && run[last.value].node == node
                           && ClockAt(run, i, node) == Stamp(run, last.value)
                           && forall k | last.value < k < i :: run[k].node != node
    decreases i
  {
    if i == 0 {
      last := None;
    } else if run[i - 1].node == node {
      last := Some(i - 1);
    } else {
      last := ClockIsLastStamp(run, i - 1, node);
    }
  }

  // ----- The theorems -----

  /** Causality: along any chain the timestamps grow strictly. */
  lemma {:induction false} ChainGrows(run: Run, chain: seq<nat>)
    requires IsChain(run, chain)
    ensures |chain| > 1 ==> Less(Stamp(run, chain[0]), Stamp(run, chain[|chain| - 1]))
    decreases |chain|
  {
    if |chain| > 1 {
      var init := chain[..|chain| - 1];
      assert IsChain(run, init) by {
        forall k | 0 < k < |init| ensures Precedes(run, init[k - 1], init[k]) {
          assert Precedes(run, chain[k - 1], chain[k]);
        }
      }
      ChainGrows(run, init);
      assert Precedes(run, chain[|chain| - 2], chain[|chain| - 1]);
      PrecedesIsLess(run, chain[|chain| - 2], chain[|chain| - 1]);
    }
  }

  lemma HappensBeforeIsLess(run: Run, i: nat, j: nat)
    requires HappensBefore(run, i, j)
    ensures i < |run| && j < |run| && Less(Stamp(run, i), Stamp(run, j))
  {
    var chain :| IsChain(run, chain) && |chain| > 1 && chain[0] == i && chain[|chain| - 1] == j;
    ChainGrows(run, chain);
  }

  /** How a timestamp with logical part c came about: c steps from an event that read this very
      physical time, or from a fresh clock. */
  ghost predicate Explains(run: Run, chain: seq<nat>, i: nat) {
    && IsChain(run, chain) && chain[|chain| - 1] == i && i < |run|
    && (forall k | 0 <= k < |chain| :: chain[k] < |run| && Stamp(run, chain[k]).physical == Stamp(run, i).physical
                                       && Stamp(run, chain[k]).logical == Stamp(run, i).logical - (|chain| - 1) + k)
    && (|| (Stamp(run, chain[0]).logical == 0 && run[chain[0]].reading == Stamp(run, i).physical)
        || Stamp(run, chain[0]) == Timestamp(0, 1))
  }

  lemma ExplainMore(run: Run, chain: seq<nat>, j: nat, i: nat)
    requires Explains(run, chain, j) && Precedes(run, j, i)
    requires Stamp(run, i) == Timestamp(Stamp(run, j).physical, Stamp(run, j).logical + 1)
    ensures Explains(run, chain + [i], i)
  {
    var longer := chain + [i];
    assert forall k | 0 <= k < |chain| :: longer[k] == chain[k];
    forall k | 0 < k < |longer| ensures Precedes(run, longer[k - 1], longer[k]) {
      if k < |chain| {
        assert Precedes(run, chain[k - 1], chain[k]);
      }
    }
  }

  /** Every timestamp is explained: its logical part counts the events of a causal chain that all
      bear the same physical part. */
  lemma {:induction false} LogicalCountsChain(run: Run, i: nat) returns (chain: seq<nat>)
    requires i < |run|
    ensures Explains(run, chain, i)
    decreases i
  {
    var e, ts := run[i], Stamp(run, i);
    var clock := ClockAt(run, i, e.node);
    var last := ClockIsLastStamp(run, i, e.node);
    LogicalIsNatural(run, i, e.node);
    LogicalIsNatural(run, i + 1, e.node);
    if e.from.Some? {
      LogicalIsNatural(run, e.from.value + 1, run[e.from.value].node);
    }
    if ts.logical == 0 {
      assert ts.physical == e.reading;
      chain := [i];
    } else if ts == Timestamp(clock.physical, clock.logical + 1) {
      if last.None? {
        chain := [i];
      } else {
        chain := LogicalCountsChain(run, last.value);
        assert Precedes(run, last.value, i);
        ExplainMore(run, chain, last.value, i);
        chain := chain + [i];
      }
    } else {
      var s := e.from.value;
      chain := LogicalCountsChain(run, s);
      assert Precedes(run, s, i);
      ExplainMore(run, chain, s, i);
      chain := chain + [i];
    }
  }

  /** No chain of events with one physical part is longer: the logical part is the length of the
      longest one. */
  lemma {:induction false} NoLongerChain(run: Run, chain: seq<nat>)
    requires IsChain(run, chain)
    requires forall k | 0 <= k < |chain| :: Stamp(run, chain[k]).physical == Stamp(run, chain[0]).physical
    ensures |chain| - 1 <= Stamp(run, chain[|chain| - 1]).logical
    decreases |chain|
  {
    var end := chain[|chain| - 1];
    LogicalIsNatural(run, end + 1, run[end].node);
    if |chain| > 1 {
      var init := chain[..|chain| - 1];
      assert IsChain(run, init) by {
        forall k | 0 < k < |init| ensures Precedes(run, init[k - 1], init[k]) {
          assert Precedes(run, chain[k - 1], chain[k]);
        }
      }
      NoLongerChain(run, init);
      assert Precedes(run, init[|init| - 1], end);
      PrecedesIsLess(run, init[|init| - 1], end);
      assert Stamp(run, init[|init| - 1]).physical == Stamp(run, end).physical;
    }
  }

  lemma {:induction false} ReadingIsBelow(run: Run, i: nat)
    requires i < |run|
    ensures run[i].reading <= Stamp(run, i).physical
  {
  }

  /** The physical part is the largest reading in the causal past, or zero where all readings are
      negative: no event up to this one read more, and if it is not zero, one of them read it. */
  lemma PhysicalIsLatestReading(run: Run, i: nat) returns (k: nat)
    requires i < |run|
    ensures Stamp(run, i).physical >= 0 && run[i].reading <= Stamp(run, i).physical
    ensures forall j: nat | HappensBefore(run, j, i) :: j < |run| && run[j].reading <= Stamp(run, i).physical
    ensures Stamp(run, i).physical > 0 ==>
              k < |run| && (k == i || HappensBefore(run, k, i)) && run[k].reading == Stamp(run, i).physical
  {
    LogicalIsNatural(run, i + 1, run[i].node);
    var chain := LogicalCountsChain(run, i);
    k := chain[0];
    assert k == i || HappensBefore(run, k, i) by {
      if |chain| > 1 {
        assert IsChain(run, chain) && chain[0] == k && chain[|chain| - 1] == i;
      }
    }
    ReadingIsBelow(run, i);
    forall j: nat | HappensBefore(run, j, i) ensures j < |run| && run[j].reading <= Stamp(run, i).physical {
      HappensBeforeIsLess(run, j, i);
      ReadingIsBelow(run, j);
    }
  }
}
