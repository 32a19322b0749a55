/** Small facts about sequences, sets and division shared by the components. */
module Lib {

  /** An ASCII decimal digit. */
  predicate IsDigit(c: char)
  {
    '0' <= c <= '9'
  }

  /** No element occurs twice. */
  predicate NoDuplicates<T(==)>(s: seq<T>)
  {
    forall a, b :: 0 <= a < b < |s| ==> s[a] != s[b]
  }

  /** Position of the first occurrence of x in s. */
  function IndexOf<T(==)>(s: seq<T>, x: T): (k: nat)
    requires x in s
    ensures k < |s| && s[k] == x
    ensures x !in s[..k]
  {
    if s[0] == x then 0
    else
      assert x in s[1..];
      var k := 1 + IndexOf(s[1..], x);
      assert s[..k] == [s[0]] + s[1..][..k - 1];
      k
  }

  /** The first occurrence is the same in a sequence and in any prefix that already contains x. */
  lemma IndexOfPrefix<T>(s: seq<T>, n: nat, x: T)
    requires n <= |s| && x in s[..n]
    ensures x in s && IndexOf(s, x) == IndexOf(s[..n], x)
  {
    var k, k' := IndexOf(s, x), IndexOf(s[..n], x);
    assert s[..n][k'] == s[k'];
    assert s[..n][..k'] == s[..k'];
  }

  lemma AppendAssoc<T>(a: seq<T>, b: seq<T>, c: seq<T>)
    ensures (a + b) + c == a + (b + c)
  {
  }

  /** A slice of a suffix is a slice of the whole sequence. */
  lemma SliceOfSuffix<T>(p: seq<T>, a: nat, b: nat, c: nat)
    requires b <= c && a + c <= |p|
    ensures p[a..][b..c] == p[a + b..a + c]
  {
  }

  /** Concatenation of a sequence of sequences. */
  function Flatten<T>(ss: seq<seq<T>>): seq<T>
  {
    if ss == [] then [] else ss[0] + Flatten(ss[1..])
  }

  /** A set of integers drawn from [0, n) has at most n elements. */
  lemma {:induction false} RangeCardinality(u: set<int>, n: nat)
    requires forall x :: x in u ==> 0 <= x < n
    ensures |u| <= n
  {
    if n > 0 {
      var rest := u - {n - 1};
      RangeCardinality(rest, n - 1);
    } else {
      assert forall x :: x !in u;
      assert u == {};
    }
  }

  /** Removing one divisor from the dividend removes one from the quotient. */
  lemma DivStep(x: int, d: int)
    requires d > 0 && x >= d
    ensures (x - d) / d == x / d - 1
    ensures (x - d) % d == x % d
  {
    var q, r := (x - d) / d, (x - d) % d;
    assert x == (q + 1) * d + r;
    DivUnique(x, d, q + 1, r);
  }

  /** Euclidean division determines the quotient and the remainder. */
  lemma DivUnique(x: int, d: int, q: int, r: int)
    requires d > 0 && 0 <= r < d && x == q * d + r
    ensures x / d == q && x % d == r
  {
    var q', r' := x / d, x % d;
    assert x == q' * d + r';
    var m := q' - q;
    assert m * d == r - r' by {
      assert m * d == q' * d - q * d;
    }
    if m >= 1 {
      MulAtLeast(m, d);
    } else if m <= -1 {
      MulAtLeast(-m, d);
    }
  }

  /** The quotient of a non-negative dividend is non-negative, positive when x >= d, zero when x < d. */
  lemma DivBasics(x: int, d: int)
    requires d > 0 && x >= 0
    ensures x / d >= 0
    ensures x / d >= 1 <==> x >= d
  {
    var q, r := x / d, x % d;
    assert x == q * d + r;
    if q < 0 {
      MulAtLeast(-q, d);
    } else if q >= 1 {
      MulAtLeast(q, d);
    }
    if x < d {
      DivUnique(x, d, 0, x);
    }
  }

  lemma MulSucc(m: int, d: int)
    ensures (m + 1) * d == m * d + d
  {
  }

  lemma MulAtLeast(m: int, d: int)
    requires m >= 1 && d > 0
    ensures m * d >= d
  {
    assert m * d == (m - 1) * d + d;
  }

  lemma MulMono(a: int, b: int, d: int)
    requires a <= b && d >= 0
    ensures a * d <= b * d
  {
    assert b * d - a * d == (b - a) * d;
  }
}
