/** The order of strings by their characters, as `<` on strings and `sort` use it. */
module StringOrder {

  predicate StringLe(a: string, b: string) {
    a == "" || (b != "" && (a[0] < b[0] || (a[0] == b[0] && StringLe(a[1..], b[1..]))))
  }

  predicate StringLess(a: string, b: string) {
    a != b && StringLe(a, b)
  }

  /** The order is total, antisymmetric and transitive. */
  lemma {:induction false} StringsAreOrdered(a: string, b: string, c: string)
    ensures StringLe(a, b) || StringLe(b, a)
    ensures StringLe(a, b) && StringLe(b, a) ==> a == b
    ensures StringLe(a, b) && StringLe(b, c) ==> StringLe(a, c)
  {
    if a != "" && b != "" {
      StringsAreOrdered(a[1..], b[1..], if c != "" then c[1..] else c);
      assert a == [a[0]] + a[1..] && b == [b[0]] + b[1..];
    }
  }

  /** The first n characters are the same, and then a ends or has the smaller character. */
  ghost predicate IsLessAt(a: string, b: string, n: nat) {
    n <= |a| && n < |b| && a[..n] == b[..n] && (n == |a| || a[n] < b[n])
  }

  lemma FirstOfPrefix(a: string, b: string, n: nat)
    requires n <= |a| && n <= |b| && a[..n] == b[..n]
    ensures n > 0 ==> a[0] == b[0]
  {
    if n > 0 {
      assert a[..n][0] == b[..n][0];
    }
  }

  /** One string is less than another iff at the first place where they differ it ends or has the smaller
      character. */
  lemma {:induction false} LessIsByFirstDifference(a: string, b: string)
    ensures StringLess(a, b) <==> exists n: nat :: IsLessAt(a, b, n)
  {
    if a != "" && b != "" {
      var s, t := a[1..], b[1..];
      LessIsByFirstDifference(s, t);
      assert a == [a[0]] + s && b == [b[0]] + t;
      if a[0] == b[0] {
        if n: nat :| IsLessAt(s, t, n) {
          assert a[..n + 1] == [a[0]] + s[..n] && b[..n + 1] == [b[0]] + t[..n];
          assert IsLessAt(a, b, n + 1);
        }
        if n: nat :| IsLessAt(a, b, n) {
          assert n > 0 && a[..n][1..] == s[..n - 1] && b[..n][1..] == t[..n - 1];
          assert IsLessAt(s, t, n - 1);
        }
      } else {
        assert a[0] < b[0] ==> IsLessAt(a, b, 0);
        forall n: nat | IsLessAt(a, b, n) ensures n == 0 {
          FirstOfPrefix(a, b, n);
        }
      }
    } else {
      assert a == "" && b != "" ==> IsLessAt(a, b, 0);
    }
  }
}
