/** Dotted version vectors (vector_clock_advanced.py): a clock and a set of dots as a compressed
    form of the set of events a replica knows. */
module DottedVersionVectors {
  import opened SortedSets
  import opened Wrappers

  datatype Actor = Actor(id: string)

  /** The ts-th event of an actor. */
  datatype Dot = Dot(actor: Actor, ts: int)

  datatype Error = ValueError

  datatype Vector = Vector(clock: map<Actor, int>, dots: set<Dot>) {
    function Top(a: Actor): int {
      if a in clock then clock[a] else 0
    }

    /** What `get_causal_past` spells out: the dots, and 1 to clock[a] of every actor. */
    function Past(): (past: set<Dot>)
      ensures forall d: Dot :: d in past <==> d in dots || 1 <= d.ts <= Top(d.actor)
    {
      var covered := set a, t | a in clock && 1 <= t <= clock[a] :: Dot(a, t);
      assert forall d: Dot | 1 <= d.ts <= Top(d.actor) :: d == Dot(d.actor, d.ts) && d in covered;
      dots + covered
    }

    /** Clocks count from 0, events from 1. */
    ghost predicate WellFormed() {
      && (forall a | a in clock :: clock[a] >= 0)
      && (forall d | d in dots :: d.ts >= 1)
    }

    /** No dot is covered by the clock or could be: each leaves a gap above it. */
    ghost predicate Canonical() {
      WellFormed() && forall d | d in dots :: d.ts > Top(d.actor) + 1
    }
  }

  // ----- The canonical form -----

  /** The clock of a canonical vector is how far an actor's events are known without a gap. */
  lemma CanonicalTop(v: Vector, a: Actor)
    requires v.Canonical()
    ensures v.Top(a) >= 0 && Dot(a, v.Top(a) + 1) !in v.Past()
    ensures forall t | 1 <= t <= v.Top(a) :: Dot(a, t) in v.Past()
  {
  }

  /** Two canonical vectors that know the same events are the same, up to clocks at zero. */
  lemma CanonicalIsUnique(u: Vector, v: Vector)
    requires u.Canonical() && v.Canonical() && u.Past() == v.Past()
    ensures u.dots == v.dots && forall a :: u.Top(a) == v.Top(a)
  {
    forall a ensures u.Top(a) == v.Top(a) {
      CanonicalTop(u, a);
      CanonicalTop(v, a);
      assert u.Top(a) < v.Top(a) ==> Dot(a, u.Top(a) + 1) in v.Past();
      assert v.Top(a) < u.Top(a) ==> Dot(a, v.Top(a) + 1) in u.Past();
    }
    forall d ensures d in u.dots <==> d in v.dots {
      assert d in u.Past() <==> d in v.Past();
      assert d.ts > u.Top(d.actor) + 1 ==> (d in u.dots <==> d in u.Past());
      assert d.ts > v.Top(d.actor) + 1 ==> (d in v.dots <==> d in v.Past());
    }
  }

  // ----- Compaction -----

  /** How far the dots of one actor extend its clock. */
  ghost predicate Extends(dots: set<Dot>, a: Actor, top: int, extended: int) {
    && extended >= top
    && (forall t | top < t <= extended :: Dot(a, t) in dots)
    && Dot(a, extended + 1) !in dots
  }

  /** The scan of `_compact_dots` over one actor's sorted dots. */
  method ExtendedMax(dots: set<Dot>, a: Actor, currentMax: int) returns (extendedMax: int)
    ensures Extends(dots, a, currentMax, extendedMax)
  {
    var stamps := set d | d in dots && d.actor == a :: d.ts;
    assert forall t :: t in stamps <==> Dot(a, t) in dots by {
      assert forall t :: Dot(a, t).actor == a && Dot(a, t).ts == t;
      forall t | t in stamps ensures Dot(a, t) in dots {
        var d :| d in dots && d.actor == a && d.ts == t;
        assert d == Dot(a, t);
      }
    }
    var actorDots := SortSet(stamps);
    extendedMax := currentMax;
    for i := 0 to |actorDots|
      invariant extendedMax >= currentMax
      invariant forall t | currentMax < t <= extendedMax :: Dot(a, t) in dots
      invariant forall j | 0 <= j < i :: actorDots[j] != extendedMax + 1
    {
      assert actorDots[i] in actorDots;
      if actorDots[i] == extendedMax + 1 {
        extendedMax := actorDots[i];
      }
    }
    assert extendedMax + 1 !in actorDots;
  }

  /** What the loop over the actors leaves: every actor with dots has its clock extended. */
  ghost predicate IsExtended(v: Vector, v': Vector, todo: set<Actor>) {
    && v'.dots == v.dots
    && forall a :: if a in todo || (forall d | d in v.dots :: d.actor != a) then v'.Top(a) == v.Top(a)
                   else Extends(v.dots, a, v.Top(a), v'.Top(a))
  }

  function Uncovered(v: Vector): set<Dot> {
    set d | d in v.dots && d.ts > v.Top(d.actor)
  }

  /** Compaction loses and invents nothing, and its result is canonical. */
  lemma CompactionKeepsPast(v: Vector, v': Vector)
    requires v.WellFormed() && v'.WellFormed() && IsExtended(v, v', {})
    ensures var w := v'.(dots := Uncovered(v')); w.Canonical() && w.Past() == v.Past()
  {
    var w := v'.(dots := Uncovered(v'));
    forall d | d in w.dots ensures d.ts > w.Top(d.actor) + 1 {
      assert d in v.dots && d == Dot(d.actor, d.ts);
      assert Extends(v.dots, d.actor, v.Top(d.actor), v'.Top(d.actor));
    }
    forall d ensures d in w.Past() <==> d in v.Past() {
      assert d == Dot(d.actor, d.ts);
      if exists e :: e in v.dots && e.actor == d.actor {
        assert Extends(v.dots, d.actor, v.Top(d.actor), v'.Top(d.actor));
      } else {
        assert v'.Top(d.actor) == v.Top(d.actor);
      }
    }
  }

  // ----- Order -----

  /** One actor's clock is covered by another vector, by clock or by dots. */
  ghost predicate ClockCovered(u: Vector, v: Vector, a: Actor) {
    forall t | v.Top(a) < t <= u.Top(a) :: Dot(a, t) in v.dots
  }

  /** The gap between two clocks, searched for in the other's dots. */
  method ClockIsCovered(u: Vector, v: Vector, a: Actor) returns (covered: bool)
    ensures covered <==> ClockCovered(u, v, a)
  {
    var low, high := v.Top(a), u.Top(a);
    if high > low {
      for t := low + 1 to high + 1
        invariant forall m | low < m < t :: Dot(a, m) in v.dots
      {
        if Dot(a, t) !in v.dots {
          return false;
        }
      }
    }
    return true;
  }

  lemma SubsetByParts(u: Vector, v: Vector)
    requires u.WellFormed() && v.WellFormed()
    ensures u.Past() <= v.Past() <==>
            (forall a | a in u.clock :: ClockCovered(u, v, a)) && (forall d | d in u.dots :: d in v.Past())
  {
    if u.Past() <= v.Past() {
      forall a, t | a in u.clock && v.Top(a) < t <= u.Top(a) ensures Dot(a, t) in v.dots {
        assert v.Top(a) >= 0;
        assert Dot(a, t) in u.Past();
      }
    }
    if (forall a | a in u.clock :: ClockCovered(u, v, a)) && (forall d | d in u.dots :: d in v.Past()) {
      forall d | d in u.Past() ensures d in v.Past() {
        assert d == Dot(d.actor, d.ts);
        if d !in u.dots && d.ts > v.Top(d.actor) {
          assert ClockCovered(u, v, d.actor);
        }
      }
    }
  }

  /** A dot above the clock adds one event; the clock may then follow it if nothing lies between. */
  lemma DotAdds(v: Vector, a: Actor, ts: int)
    requires v.WellFormed() && ts > v.Top(a)
    ensures var w := v.(dots := v.dots + {Dot(a, ts)});
            var w' := w.(clock := v.clock[a := ts]);
            && (if ts == v.Top(a) + 1 then w'.WellFormed() && w'.Past() == v.Past() + {Dot(a, ts)}
                else w.WellFormed() && (v.Canonical() ==> w.Canonical()) && w.Past() == v.Past() + {Dot(a, ts)})
            && (Dot(a, ts) in v.Past() <==> Dot(a, ts) in v.dots)
            && (v.Canonical() && ts == v.Top(a) + 1 ==> Dot(a, ts) !in v.dots)
  {
    assert v.Top(a) >= 0;
    if ts == v.Top(a) + 1 {
      var w' := v.(dots := v.dots + {Dot(a, ts)}, clock := v.clock[a := ts]);
      forall d ensures d in w'.Past() <==> d in v.Past() || d == Dot(a, ts) {
        assert d == Dot(d.actor, d.ts);
      }
    }
  }

  // ----- Replicas exchanging vectors -----

  datatype Step =
    | Issue(a: Actor, ts: int)
    | MergeFrom(a: Actor, b: Actor)

  /** One replica per actor, from an empty vector on; `Issue` is an `increment` that is not refused. */
  ghost predicate Next(r: map<Actor, Vector>, step: Step, r': map<Actor, Vector>) {
    && step.a in r && step.a in r' && r' == r[step.a := r'[step.a]] && r'[step.a].Canonical()
    && match step
       case Issue(a, ts) => ts > r[a].Top(a) && r'[a].Past() == r[a].Past() + {Dot(a, ts)}
       case MergeFrom(a, b) => b in r && r'[a].Past() == r[a].Past() + r[b].Past()
  }

  ghost predicate IsRun(run: seq<map<Actor, Vector>>, steps: seq<Step>) {
    && |run| == |steps| + 1
    && (forall a | a in run[0] :: run[0][a].Canonical() && run[0][a].Past() == {})
    && forall i | 0 <= i < |steps| :: Next(run[i], steps[i], run[i + 1])
  }

  /** Nobody knows an event of an actor that the actor's own replica does not know. */
  ghost predicate OwnersKnow(r: map<Actor, Vector>) {
    && (forall a | a in r :: r[a].Canonical())
    && forall b, d: Dot | b in r && d in r[b].Past() :: d.actor in r && d in r[d.actor].Past()
  }

  lemma StepKeepsOwners(r: map<Actor, Vector>, step: Step, r': map<Actor, Vector>)
    requires OwnersKnow(r) && Next(r, step, r')
    ensures OwnersKnow(r') && forall a | a in r :: a in r' && r[a].Past() <= r'[a].Past()
  {
    hide Vector.Past, Vector.Canonical;
  }

  lemma {:induction false} OwnersAlwaysKnow(run: seq<map<Actor, Vector>>, steps: seq<Step>, i: nat, j: nat)
    requires IsRun(run, steps) && i <= j < |run|
    ensures OwnersKnow(run[i]) && OwnersKnow(run[j])
    ensures forall a | a in run[i] :: a in run[j] && run[i][a].Past() <= run[j][a].Past()
    decreases j, i
  {
    hide Vector.Past, Vector.Canonical, Next;
    if i < j {
      OwnersAlwaysKnow(run, steps, i, j - 1);
      assert Next(run[j - 1], steps[j - 1], run[j - 1 + 1]);
      StepKeepsOwners(run[j - 1], steps[j - 1], run[j]);
    } else if 0 < j {
      OwnersAlwaysKnow(run, steps, j - 1, j);
    }
  }

  /** Events are identified as far as the times allow: when a replica issues one, nobody knows it yet
      unless the replica has a dot for it, and an increment without a time of its own always finds such
      a one. An event is issued a second time only with a time that the replica has a dot for, past a
      gap; whatever gaps, merges and compactions there are. */
  lemma EventsAreIssuedOnce(run: seq<map<Actor, Vector>>, steps: seq<Step>, i: nat)
    requires IsRun(run, steps) && i < |steps| && steps[i].Issue? && steps[i].a in run[i]
    ensures var d, v := Dot(steps[i].a, steps[i].ts), run[i][steps[i].a];
            && ((forall b | b in run[i] :: d !in run[i][b].Past()) <==> d !in v.dots)
            && (d.ts == v.Top(d.actor) + 1 ==> d !in v.dots)
    ensures forall j | i < j < |steps| && steps[j] == steps[i] ::
              var d := Dot(steps[i].a, steps[i].ts);
              d.actor in run[j] && d in run[j][d.actor].dots && d.ts > run[j][d.actor].Top(d.actor) + 1
  {
    var d := Dot(steps[i].a, steps[i].ts);
    OwnersAlwaysKnow(run, steps, i, i);
    assert Next(run[i], steps[i], run[i + 1]);
    assert d in run[i][d.actor].Past() <==> d in run[i][d.actor].dots;
    forall j | i < j < |steps| && steps[j] == steps[i]
      ensures d.actor in run[j] && d in run[j][d.actor].dots && d.ts > run[j][d.actor].Top(d.actor) + 1
    {
      OwnersAlwaysKnow(run, steps, i + 1, j);
      assert d in run[j][d.actor].Past();
      assert Next(run[j], steps[j], run[j + 1]);
    }
  }

  // ----- The vector in place -----

  class DottedVersionVector {
    const actor: Actor
    var clock: map<Actor, int>
    var dots: set<Dot>

    ghost function View(): Vector
      reads this
    {
      Vector(clock, dots)
    }

    function Top(a: Actor): int
      reads this
    {
      Vector(clock, dots).Top(a)
    }

    ghost predicate Valid()
      reads this
    {
      View().Canonical()
    }

    constructor (actor: Actor)
      ensures this.actor == actor && Valid() && View().Past() == {}
    {
      this.actor := actor;
      clock, dots := map[actor := 0], {};
    }

    /** What `from_dict` makes: it takes over whatever it is given. */
    constructor FromDict(actor: Actor, clock: map<Actor, int>, dots: set<Dot>)
      ensures this.actor == actor && View() == Vector(clock, dots)
    {
      this.actor, this.clock, this.dots := actor, clock, dots;
    }

    method Increment(timestamp: Option<int>) returns (result: Result<int, Error>)
      requires View().WellFormed()
      modifies this
      ensures View().WellFormed() && (old(Valid()) ==> Valid())
      ensures result.Failure? <==> timestamp.Some? && timestamp.value <= old(Top(actor))
      ensures result.Failure? ==> View() == old(View())
      ensures result.Success? && timestamp.Some? ==> result.value == timestamp.value
      ensures result.Success? && timestamp.None? ==> result.value == old(Top(actor)) + 1
      ensures result.Success? ==> View().Past() == old(View().Past()) + {Dot(actor, result.value)}
      ensures result.Success? && timestamp.None? && old(Valid()) ==> Dot(actor, result.value) !in old(View().Past())
      ensures result.Success? ==>
          (Dot(actor, result.value) !in old(View().Past()) <==> Dot(actor, result.value) !in old(dots))
    {
      var current := Top(actor);
      var newTs;
      match timestamp {
        case Some(t) =>
          if t <= current {
            return Failure(ValueError);
          }
          newTs := t;
        case None =>
          newTs := current + 1;
      }
      ghost var before := View();
      DotAdds(before, actor, newTs);
      hide Vector.Past, Vector.WellFormed;
      dots := dots + {Dot(actor, newTs)};
      if newTs == current + 1 {
        clock := clock[actor := newTs];
        CompactDots();
      }
      return Success(newTs);
    }

    method Event(other: DottedVersionVector?) returns (ts: int)
      requires View().WellFormed() && (other != null ==> other.View().WellFormed())
      modifies this
      ensures View().WellFormed() && (other != null || old(Valid()) ==> Valid())
      ensures var known := old(View().Past()) + if other == null then {} else old(other.View().Past());
              && View().Past() == known + {Dot(actor, ts)}
              && (other != null || old(Valid()) ==> Dot(actor, ts) !in known)
              && (other == null ==> ts == old(Top(actor)) + 1
                                    && (Dot(actor, ts) !in known <==> Dot(actor, ts) !in old(dots)))
    {
      if other != null {
        Merge(other);
      }
      var result := Increment(None);
      ts := result.value;
    }

    method Merge(other: DottedVersionVector)
      requires View().WellFormed() && other.View().WellFormed()
      modifies this
      ensures Valid() && View().Past() == old(View().Past()) + old(other.View().Past())
    {
      ghost var u, v := View(), other.View();
      var theirs := other.clock;
      dots := dots + other.dots;
      var left := theirs.Keys;
      while left != {}
        invariant left <= theirs.Keys && dots == u.dots + v.dots
        invariant forall a :: Top(a) == if a in theirs && a !in left then Max(u.Top(a), v.Top(a)) else u.Top(a)
        invariant forall a | a in clock :: clock[a] >= 0
        decreases |left|
      {
        var a :| a in left;
        left := left - {a};
        clock := clock[a := Max(Top(a), theirs[a])];
      }
      MergedPast(u, v, View());
      CompactDots();
    }

    method CompactDots()
      requires View().WellFormed()
      modifies this
      ensures Valid() && View().Past() == old(View().Past())
    {
      ghost var v := View();
      var dotActors := set d | d in dots :: d.actor;
      var left := dotActors;
      while left != {}
        invariant left <= dotActors
        invariant IsExtended(v, View(), left) && View().WellFormed()
        decreases |left|
      {
        var a :| a in left;
        left := left - {a};
        var currentMax := Top(a);
        var extendedMax := ExtendedMax(dots, a, currentMax);
        if extendedMax > currentMax {
          clock := clock[a := extendedMax];
        }
      }
      CompactionKeepsPast(v, View());
      dots := set d | d in dots && d.ts > Top(d.actor);
      assert dots == Uncovered(Vector(clock, v.dots));
    }

    /** Whether the other knows every event this vector knows. */
    method IsSubset(other: DottedVersionVector) returns (r: bool)
      requires View().WellFormed() && other.View().WellFormed()
      ensures r <==> View().Past() <= other.View().Past()
    {
      SubsetByParts(View(), other.View());
      hide Vector.Past, Vector.Canonical, ClockCovered, Vector.WellFormed;
      var left := clock.Keys;
      while left != {}
        invariant left <= clock.Keys
        invariant forall a | a in clock && a !in left :: ClockCovered(View(), other.View(), a)
        decreases |left|
      {
        var a :| a in left;
        left := left - {a};
        var covered := ClockIsCovered(Vector(clock, dots), Vector(other.clock, other.dots), a);
        if !covered {
          return false;
        }
      }
      var rest := dots;
      while rest != {}
        invariant rest <= dots
        invariant forall d | d in dots && d !in rest :: d in other.View().Past()
        decreases |rest|
      {
        var d :| d in rest;
        rest := rest - {d};
        if d.ts > other.Top(d.actor) && d !in other.dots {
          return false;
        }
      }
      return true;
    }

    method HappensBefore(other: DottedVersionVector) returns (r: bool)
      requires View().WellFormed() && other.View().WellFormed()
      ensures r <==> View().Past() < other.View().Past()
    {
      var isLeq := IsSubset(other);
      if !isLeq {
        return false;
      }
      var isGeq := other.IsSubset(this);
      return !isGeq;
    }

    method Concurrent(other: DottedVersionVector) returns (r: bool)
      requires View().WellFormed() && other.View().WellFormed()
      ensures r <==> !(View().Past() <= other.View().Past()) && !(other.View().Past() <= View().Past())
    {
      r := IsSubset(other);
      if !r {
        r := other.IsSubset(this);
      }
      r := !r;
    }

    /** `__eq__`: equal exactly when the same events are known; canonical representations then agree. */
    method Equals(other: DottedVersionVector) returns (r: bool)
      requires View().WellFormed() && other.View().WellFormed()
      ensures r <==> View().Past() == other.View().Past()
      ensures r && Valid() && other.Valid() ==> dots == other.dots && forall a :: Top(a) == other.Top(a)
    {
      r := IsSubset(other);
      if r {
        r := other.IsSubset(this);
      }
      if r && View().Canonical() && other.View().Canonical() {
        CanonicalIsUnique(View(), other.View());
      }
    }
  }

  function Max(x: int, y: int): int {
    if x >= y then x else y
  }

  lemma MergedPast(u: Vector, v: Vector, w: Vector)
    requires u.WellFormed() && v.WellFormed() && w.dots == u.dots + v.dots
    requires forall a :: w.Top(a) == if a in v.clock then Max(u.Top(a), v.Top(a)) else u.Top(a)
    requires forall a | a in w.clock :: w.clock[a] >= 0
    ensures w.WellFormed() && w.Past() == u.Past() + v.Past()
  {
    forall d ensures d in w.Past() <==> d in u.Past() || d in v.Past() {
      assert u.Top(d.actor) >= 0;
    }
  }

  /** `DottedVersionVector(actor)` refuses the empty name. */
  method NewVector(id: string) returns (r: Result<DottedVersionVector, Error>)
    ensures r.Failure? <==> id == ""
    ensures r.Success? ==>
              fresh(r.value) && r.value.actor == Actor(id) && r.value.Valid() && r.value.View().Past() == {}
  {
    if id == "" {
      return Failure(ValueError);
    }
    var v := new DottedVersionVector(Actor(id));
    return Success(v);
  }

  /** `from_dict` refuses the empty name likewise. */
  method LoadVector(id: string, clock: map<Actor, int>, dots: set<Dot>) returns (r: Result<DottedVersionVector, Error>)
    ensures r.Failure? <==> id == ""
    ensures r.Success? ==> fresh(r.value) && r.value.actor == Actor(id) && r.value.View() == Vector(clock, dots)
  {
    if id == "" {
      return Failure(ValueError);
    }
    var v := new DottedVersionVector.FromDict(Actor(id), clock, dots);
    return Success(v);
  }

  /** The same time, given twice, names two events of one actor alike: past a gap the second increment
      is not refused. */
  method SameTimeTwice(actor: Actor, ts: int) returns (first: Result<int, Error>, second: Result<int, Error>)
    requires ts >= 1
    ensures first == Success(ts)
    ensures second == if ts == 1 then Failure(ValueError) else Success(ts)
  {
    var v := new DottedVersionVector(actor);
    assert v.Top(actor) < 1 by {
      assert Dot(actor, 1) !in v.View().Past();
    }
    first := v.Increment(Some(ts));
    assert v.View().Past() == {Dot(actor, ts)};
    CanonicalTop(v.View(), actor);
    assert Dot(actor, 1) in v.View().Past() <==> ts == 1;
    assert v.Top(actor) >= 1 <==> ts == 1;
    second := v.Increment(Some(ts));
    assert second.Failure? <==> ts == 1;
    assert second.Failure? ==> second.error == ValueError;
    assert second.Success? ==> second == Success(ts);
  }
}
