/** Values and small facts shared by the models: options, time, sums over maps, largest elements and set sizes. */
module Prelude {

  datatype Option<+T> = None | Some(value: T)

  // Instants are integers counted in microseconds, the resolution of the datetimes in the program.
  type Instant = int

  const MINUTE: int := 60_000_000
  const HOUR: int := 60 * MINUTE
  const DAY: int := 24 * HOUR

  /** An arbitrary but fixed element of a non-empty set. */
  ghost function Pick<T>(s: set<T>): (x: T)
    requires s != {}
    ensures x in s
  {
    var x :| x in s; x
  }

  /** The sum of the values of a map, in no particular order. */
  ghost function Sum<K>(m: map<K, int>): int
    decreases |m|
  {
    if m == map[] then 0
    else
      assert m.Keys != {};
      var k := Pick(m.Keys);
      m[k] + Sum(m - {k})
  }

  /** Any key may be taken out of a sum first. */
  lemma {:induction false} SumRemove<K>(m: map<K, int>, k: K)
    requires k in m
    ensures Sum(m) == m[k] + Sum(m - {k})
    decreases |m|
  {
    var j := Pick(m.Keys);
    if j != k {
      SumRemove(m - {j}, k);
      SumRemove(m - {k}, j);
      assert m - {j} - {k} == m - {k} - {j};
    }
  }

  /** Sums over the same keys subtract key by key. */
  lemma {:induction false} SumDifference<K>(a: map<K, int>, b: map<K, int>, d: map<K, int>)
    requires a.Keys == b.Keys == d.Keys
    requires forall k :: k in d ==> d[k] == b[k] - a[k]
    ensures Sum(d) == Sum(b) - Sum(a)
    decreases |d|
  {
    if d == map[] {
      assert a == map[] && b == map[];
    } else {
      var k := Pick(d.Keys);
      SumRemove(a, k);
      SumRemove(b, k);
      SumDifference(a - {k}, b - {k}, d - {k});
    }
  }

  /** A sum of non-negative numbers bounds each of them. */
  lemma {:induction false} SumNonNegative<K>(m: map<K, int>)
    requires forall k :: k in m ==> m[k] >= 0
    ensures Sum(m) >= 0
    ensures forall k :: k in m ==> m[k] <= Sum(m)
    decreases |m|
  {
    if m != map[] {
      var j := Pick(m.Keys);
      SumNonNegative(m - {j});
      forall k | k in m
        ensures m[k] <= Sum(m)
      {
        if k != j {
          assert k in m - {j} && (m - {j})[k] == m[k];
        }
      }
    }
  }

  /** The sum over the disjoint union u of a and b. */
  lemma {:induction false} SumUnion<K>(a: map<K, int>, b: map<K, int>, u: map<K, int>)
    requires forall k :: k in a ==> k !in b && k in u && u[k] == a[k]
    requires forall k :: k in b ==> k in u && u[k] == b[k]
    requires forall k :: k in u ==> k in a || k in b
    ensures Sum(u) == Sum(a) + Sum(b)
    decreases |a|
  {
    if a == map[] {
      assert u == b;
    } else {
      var k := Pick(a.Keys);
      var a', u' := a - {k}, u - {k};
      assert Sum(u) == u[k] + Sum(u') by {
        SumRemove(u, k);
      }
      SumUnion(a', b, u');
    }
  }

  /** The largest element of a non-empty set of integers. */
  ghost function Max(s: set<int>): (m: int)
    requires s != {}
    ensures m in s && forall x :: x in s ==> x <= m
  {
    var x := Pick(s);
    if s == {x} then x
    else
      assert s - {x} != {} && s == s - {x} + {x};
      var y := Max(s - {x});
      if x <= y then y else x
  }

  /** The smallest element of a non-empty set of integers. */
  ghost function Min(s: set<int>): (m: int)
    requires s != {}
    ensures m in s && forall x :: x in s ==> m <= x
  {
    var x := Pick(s);
    if s == {x} then x
    else
      assert s - {x} != {} && s == s - {x} + {x};
      var y := Min(s - {x});
      if y <= x then y else x
  }

  lemma {:induction false} SubsetSize<T>(a: set<T>, b: set<T>)
    requires a <= b
    ensures |a| <= |b|
    decreases |a|
  {
    if a != {} {
      var x := Pick(a);
      SubsetSize(a - {x}, b - {x});
    }
  }

  /** A set is worked off one element at a time. */
  lemma TakenFrom<T>(all: set<T>, done: set<T>, todo: set<T>, x: T)
    requires done !! todo && done + todo == all && x in todo
    ensures done + {x} !! todo - {x} && done + {x} + (todo - {x}) == all && |todo - {x}| < |todo|
  {
  }
}
