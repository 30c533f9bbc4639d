/** Sorting a set of numbers, as `sorted` does. */
module SortedSets {

  ghost predicate Ascending(s: seq<int>) {
    forall i, j | 0 <= i < j < |s| :: s[i] < s[j]
  }

  ghost predicate IsLeast(s: set<int>, x: int) {
    x in s && forall y | y in s :: x <= y
  }

  lemma {:induction false} LeastExists(s: set<int>)
    requires s != {}
    ensures exists x :: IsLeast(s, x)
    decreases |s|
  {
    assert (forall x :: x !in s) ==> s == {};
    var x: int :| x in s;
    var rest := s - {x};
    if rest == {} {
      assert forall y | y in s :: y == x || y in rest;
      assert IsLeast(s, x);
    } else {
      LeastExists(rest);
      var z :| IsLeast(rest, z);
      assert forall y | y in s :: y == x || y in rest;
      assert IsLeast(s, if x < z then x else z);
    }
  }

  method SortSet(stamps: set<int>) returns (sorted: seq<int>)
    ensures Ascending(sorted) && forall x :: x in sorted <==> x in stamps
  {
    sorted := [];
    var left := stamps;
    while left != {}
      invariant left <= stamps && Ascending(sorted)
      invariant forall x :: x in sorted <==> x in stamps && x !in left
      invariant forall i, y | 0 <= i < |sorted| && y in left :: sorted[i] < y
      decreases |left|
    {
      ghost var least: int;
      LeastExists(left);
      least :| IsLeast(left, least);
      var x: int :| x in left && forall y | y in left :: x <= y;
      sorted := sorted + [x];
      left := left - {x};
    }
  }
}
