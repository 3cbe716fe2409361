/** The stable sort behind Python's `list.sort(key=...)` and `sorted(...)`,
    as an insertion sort over a "less than or equal" relation. */
module Sorting {

  /** `leq` is total and transitive: what comparing sort keys gives. */
  ghost predicate TotalPreorder<T(!new)>(leq: (T, T) -> bool) {
    && (forall a, b :: leq(a, b) || leq(b, a))
    && (forall a, b, c :: leq(a, b) && leq(b, c) ==> leq(a, c))
  }

  ghost predicate Sorted<T>(s: seq<T>, leq: (T, T) -> bool) {
    forall i, j | 0 <= i < j < |s| :: leq(s[i], s[j])
  }

  /** `a` and `b` have equal sort keys. */
  predicate Equivalent<T>(a: T, b: T, leq: (T, T) -> bool) {
    leq(a, b) && leq(b, a)
  }

  /** The elements of `s` whose key equals the key of `k`, in order. */
  function Peers<T>(s: seq<T>, k: T, leq: (T, T) -> bool): (r: seq<T>)
    ensures |r| <= |s|
  {
    if s == [] then []
    else (if Equivalent(s[0], k, leq) then [s[0]] else []) + Peers(s[1..], k, leq)
  }

  /** Inserts `x` before the first element it is not greater than. */
  function Insert<T>(x: T, s: seq<T>, leq: (T, T) -> bool): (r: seq<T>)
    ensures multiset(r) == multiset(s) + multiset{x}
  {
    if s == [] || leq(x, s[0]) then [x] + s
    else
      assert s == [s[0]] + s[1..];
      [s[0]] + Insert(x, s[1..], leq)
  }

  function Sort<T>(s: seq<T>, leq: (T, T) -> bool): (r: seq<T>)
    ensures multiset(r) == multiset(s)
    ensures |r| == |s|
  {
    if s == [] then []
    else
      assert s == [s[0]] + s[1..];
      Insert(s[0], Sort(s[1..], leq), leq)
  }

  /** A lower bound of `s` and of `x` is a lower bound of `Insert(x, s)`. */
  lemma InsertLowerBound<T>(a: T, x: T, s: seq<T>, leq: (T, T) -> bool)
    requires leq(a, x) && forall i | 0 <= i < |s| :: leq(a, s[i])
    ensures forall i | 0 <= i < |Insert(x, s, leq)| :: leq(a, Insert(x, s, leq)[i])
  {
    var r := Insert(x, s, leq);
    forall i | 0 <= i < |r| ensures leq(a, r[i]) {
      assert r[i] in multiset(s) + multiset{x};
      if r[i] != x {
        assert r[i] in s;
      }
    }
  }

  lemma {:induction false} InsertSorted<T(!new)>(x: T, s: seq<T>, leq: (T, T) -> bool)
    requires TotalPreorder(leq) && Sorted(s, leq)
    ensures Sorted(Insert(x, s, leq), leq)
  {
    if s == [] || leq(x, s[0]) {
      var r := [x] + s;
      forall i, j | 0 <= i < j < |r| ensures leq(r[i], r[j]) {
        if i == 0 && j > 1 { assert leq(x, s[0]) && leq(s[0], s[j - 1]); }
      }
    } else {
      InsertSorted(x, s[1..], leq);
      InsertLowerBound(s[0], x, s[1..], leq);
      var t := Insert(x, s[1..], leq);
      var r := [s[0]] + t;
      forall i, j | 0 <= i < j < |r| ensures leq(r[i], r[j]) {
        if i == 0 {
          assert r[j] == t[j - 1];
        } else {
          assert r[i] == t[i - 1] && r[j] == t[j - 1];
        }
      }
    }
  }

  lemma {:induction false} InsertPeers<T(!new)>(x: T, s: seq<T>, k: T, leq: (T, T) -> bool)
    requires TotalPreorder(leq) && Sorted(s, leq)
    ensures Peers(Insert(x, s, leq), k, leq)
         == (if Equivalent(x, k, leq) then [x] else []) + Peers(s, k, leq)
  {
    if s == [] || leq(x, s[0]) {
      assert ([x] + s)[1..] == s;
    } else {
      assert Sorted(s[1..], leq);
      InsertPeers(x, s[1..], k, leq);
      var r := [s[0]] + Insert(x, s[1..], leq);
      assert r[1..] == Insert(x, s[1..], leq);
      // x and s[0] cannot both be peers of k: that would give leq(x, s[0]).
      var y := s[0];
      assert leq(x, k) && leq(k, y) ==> leq(x, y);
      assert !(Equivalent(x, k, leq) && Equivalent(s[0], k, leq));
      assert Peers(s, k, leq) == (if Equivalent(s[0], k, leq) then [s[0]] else []) + Peers(s[1..], k, leq);
    }
  }

  /** Sort yields an ordered permutation that keeps equal keys in input order. */
  lemma {:induction false} SortCorrect<T(!new)>(s: seq<T>, leq: (T, T) -> bool)
    requires TotalPreorder(leq)
    ensures Sorted(Sort(s, leq), leq)
    ensures multiset(Sort(s, leq)) == multiset(s)
    ensures forall k :: Peers(Sort(s, leq), k, leq) == Peers(s, k, leq)
  {
    if s != [] {
      SortCorrect(s[1..], leq);
      InsertSorted(s[0], Sort(s[1..], leq), leq);
      forall k ensures Peers(Sort(s, leq), k, leq) == Peers(s, k, leq) {
        InsertPeers(s[0], Sort(s[1..], leq), k, leq);
      }
    }
  }

  /** No element occurs twice. */
  predicate Distinct<T(==)>(s: seq<T>) {
    forall i, j | 0 <= i < j < |s| :: s[i] != s[j]
  }

  lemma {:induction false} DistinctCount<T>(a: seq<T>, x: T)
    requires Distinct(a)
    ensures multiset(a)[x] <= 1
  {
    if a != [] {
      assert a == [a[0]] + a[1..];
      assert Distinct(a[1..]);
      DistinctCount(a[1..], x);
      if a[0] == x {
        assert x !in a[1..];
      }
    }
  }

  /** A permutation of a sequence without repetitions has none either. */
  lemma DistinctPermutation<T>(a: seq<T>, b: seq<T>)
    requires multiset(a) == multiset(b) && Distinct(a)
    ensures Distinct(b)
  {
    forall i, j | 0 <= i < j < |b| ensures b[i] != b[j] {
      var x := b[i];
      assert b == b[..j] + b[j..];
      assert multiset(b)[x] == multiset(b[..j])[x] + multiset(b[j..])[x];
      assert x == b[..j][i];
      DistinctCount(a, x);
      assert multiset(b[j..])[x] == 0;
      assert b[j] == b[j..][0];
    }
  }
}
