/** Small general-purpose definitions shared by the modules of the model. */
module Common {

  datatype Option<T> = None | Some(value: T)

  /** The elements of `s` that satisfy `p`, in their original order
      (JavaScript's `Array.prototype.filter`, or the rows a `WHERE`
      clause keeps). Defined from the back so that appending a row
      extends the result. */
  function Filter<T>(s: seq<T>, p: T -> bool): (r: seq<T>)
    ensures |r| <= |s|
  {
    if s == [] then []
    else Filter(s[..|s| - 1], p) + (if p(s[|s| - 1]) then [s[|s| - 1]] else [])
  }

  /** What the filter keeps comes from `s` and passes `p`; whatever in `s`
      passes `p` is kept. */
  lemma {:induction false} FilterMembers<T>(s: seq<T>, p: T -> bool)
    ensures forall i :: 0 <= i < |Filter(s, p)| ==> Filter(s, p)[i] in s && p(Filter(s, p)[i])
    ensures forall i :: 0 <= i < |s| && p(s[i]) ==> s[i] in Filter(s, p)
  {
    if s != [] {
      var front, last := s[..|s| - 1], s[|s| - 1];
      assert s == front + [last];
      FilterMembers(front, p);
    }
  }

  lemma FilterAppend<T>(s: seq<T>, x: T, p: T -> bool)
    ensures Filter(s + [x], p) == Filter(s, p) + (if p(x) then [x] else [])
  {
    assert (s + [x])[..|s + [x]| - 1] == s;
  }

  lemma {:induction false} FilterConcat<T>(a: seq<T>, b: seq<T>, p: T -> bool)
    ensures Filter(a + b, p) == Filter(a, p) + Filter(b, p)
  {
    if b != [] {
      var front, last := b[..|b| - 1], b[|b| - 1];
      assert b == front + [last];
      assert a + b == (a + front) + [last];
      FilterConcat(a, front, p);
      FilterAppend(a + front, last, p);
      FilterAppend(front, last, p);
    } else {
      assert a + b == a;
    }
  }

  /** Filtering out one element between two runs leaves the filtered runs. */
  lemma FilterSkip<T>(a: seq<T>, x: T, b: seq<T>, p: T -> bool)
    requires !p(x)
    ensures Filter(a + ([x] + b), p) == Filter(a, p) + Filter(b, p)
  {
    FilterConcat(a, [x] + b, p);
    FilterConcat([x], b, p);
    assert [x] == [] + [x];
    FilterAppend([], x, p);
  }

  /** Filtering twice is filtering once by the conjunction. */
  lemma {:induction false} FilterTwice<T>(s: seq<T>, p: T -> bool, q: T -> bool, both: T -> bool)
    requires forall x :: both(x) == (p(x) && q(x))
    ensures Filter(Filter(s, p), q) == Filter(s, both)
  {
    if s != [] {
      var front, last := s[..|s| - 1], s[|s| - 1];
      assert s == front + [last];
      FilterTwice(front, p, q, both);
      FilterAppend(front, last, p);
      if p(last) {
        assert Filter(s, p) == Filter(front, p) + [last];
        FilterAppend(Filter(front, p), last, q);
      } else {
        assert Filter(s, p) == Filter(front, p);
      }
    }
  }

  /** Filters by predicates that agree everywhere keep the same elements. */
  lemma {:induction false} FilterEquivalent<T>(s: seq<T>, p: T -> bool, q: T -> bool)
    requires forall i :: 0 <= i < |s| ==> p(s[i]) == q(s[i])
    ensures Filter(s, p) == Filter(s, q)
  {
    if s != [] {
      FilterEquivalent(s[..|s| - 1], p, q);
    }
  }

  /** A filter that every element passes keeps the whole sequence. */
  lemma {:induction false} FilterAll<T>(s: seq<T>, p: T -> bool)
    requires forall i :: 0 <= i < |s| ==> p(s[i])
    ensures Filter(s, p) == s
  {
    if s != [] {
      assert s == s[..|s| - 1] + [s[|s| - 1]];
      FilterAll(s[..|s| - 1], p);
    }
  }

  /** `f` applied to every element of `s` (JavaScript's `Array.prototype.map`). */
  function Map<A, B>(s: seq<A>, f: A -> B): (r: seq<B>)
    ensures |r| == |s| && forall i :: 0 <= i < |s| ==> r[i] == f(s[i])
  {
    seq(|s|, i requires 0 <= i < |s| => f(s[i]))
  }

  /** Mapping a sequence with one more element at the back. */
  lemma MapAppend<A, B>(s: seq<A>, x: A, f: A -> B)
    ensures Map(s + [x], f) == Map(s, f) + [f(x)]
  {
  }

  /** Filtering the images is mapping the elements that pass the matching
      condition. */
  lemma {:induction false} FilterMap<A, B>(s: seq<A>, f: A -> B, p: A -> bool, q: B -> bool)
    requires forall i :: 0 <= i < |s| ==> p(s[i]) == q(f(s[i]))
    ensures Filter(Map(s, f), q) == Map(Filter(s, p), f)
  {
    if s != [] {
      var front, last := s[..|s| - 1], s[|s| - 1];
      assert s == front + [last];
      FilterMap(front, f, p, q);
      MapAppend(front, last, f);
      FilterAppend(Map(front, f), f(last), q);
      FilterAppend(front, last, p);
      if p(last) {
        MapAppend(Filter(front, p), last, f);
      }
    }
  }

  /** No two positions of `s` carry the same key. */
  ghost predicate UniqueBy<T, K>(s: seq<T>, key: T -> K) {
    forall i, j :: 0 <= i < j < |s| ==> key(s[i]) != key(s[j])
  }

  /** Deleting rows never creates a duplicate key. */
  lemma {:induction false} FilterKeepsUnique<T, K>(s: seq<T>, p: T -> bool, key: T -> K)
    requires UniqueBy(s, key)
    ensures UniqueBy(Filter(s, p), key)
  {
    if s != [] {
      var front, last := s[..|s| - 1], s[|s| - 1];
      assert s == front + [last];
      assert UniqueBy(front, key);
      FilterKeepsUnique(front, p, key);
      var f := Filter(front, p);
      FilterMembers(front, p);
      forall i | 0 <= i < |f|
        ensures key(f[i]) != key(last)
      {
        assert f[i] in front;
        var k :| 0 <= k < |front| && front[k] == f[i];
        assert s[k] == f[i];
      }
      assert Filter(s, p) == f + (if p(last) then [last] else []);
    }
  }

  /** Appending a row whose key no existing row has keeps keys unique. */
  lemma AppendKeepsUnique<T, K>(s: seq<T>, x: T, key: T -> K)
    requires UniqueBy(s, key)
    requires forall i :: 0 <= i < |s| ==> key(s[i]) != key(x)
    ensures UniqueBy(s + [x], key)
  {
  }

  /** JavaScript's `Math.round(part / whole * 100)` in exact arithmetic
      (a value half-way between two integers rounds up). */
  function RoundedPercent(part: nat, whole: nat): (r: nat)
    requires 0 < whole
    ensures 2 * whole * r <= 200 * part + whole < 2 * whole * (r + 1)
    ensures part <= whole ==> r <= 100
    ensures part == whole ==> r == 100
    ensures part == 0 ==> r == 0
  {
    PercentBounds(part, whole);
    (200 * part + whole) / (2 * whole)
  }

  lemma PercentBounds(part: nat, whole: nat)
    requires 0 < whole
    ensures var q := (200 * part + whole) / (2 * whole);
      && 2 * whole * q <= 200 * part + whole < 2 * whole * (q + 1)
      && (part <= whole ==> q <= 100)
      && (part == whole ==> q == 100)
      && (part == 0 ==> q == 0)
  {
    var n, d := 200 * part + whole, 2 * whole;
    var q := n / d;
    DivisionBounds(n, d);
    if part <= whole {
      assert n < d * 101;
      if q > 100 {
        MulMonotone(d, 101, q);
      }
    }
    if part == whole {
      assert d * 100 <= n;
      if q < 100 {
        MulMonotone(d, q + 1, 100);
      }
    }
    if part == 0 {
      assert n == whole < d;
    }
  }

  /** The two nonlinear steps of `PercentBounds`, each proved on its own
      so that the solver sees no other facts. */
  lemma DivisionBounds(n: nat, d: nat)
    requires 0 < d
    ensures d * (n / d) <= n < d * (n / d + 1)
  {
  }

  lemma MulMonotone(d: nat, a: nat, b: nat)
    requires a <= b
    ensures d * a <= d * b
  {
  }
}
