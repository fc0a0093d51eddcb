/** Sequence utilities shared by the state models: bounded prefixes,
    order-preserving filters, duplicate-freedom, first-occurrence
    de-duplication, sums and a stable insertion sort. */
module Seqs {

  /** The first `n` elements of `s`, or all of `s` when it is shorter
      (the array `slice(0, n)` of the source, for n >= 0). */
  function Take<T>(s: seq<T>, n: nat): (r: seq<T>)
    ensures |r| == if |s| < n then |s| else n
    ensures forall i | 0 <= i < |r| :: r[i] == s[i]
  {
    if |s| <= n then s else s[..n]
  }

  /** The elements of `s` satisfying `p`, in their original order
      (the array `filter` of the source). */
  function Filter<T(!new)>(s: seq<T>, p: T -> bool): (r: seq<T>)
    ensures |r| <= |s|
    ensures forall x :: x in r <==> x in s && p(x)
  {
    if s == [] then []
    else if p(s[0]) then [s[0]] + Filter(s[1..], p)
    else Filter(s[1..], p)
  }

  /** Filtering distributes over concatenation: the kept elements of a
      prefix all come before the kept elements of the suffix, which is
      what "preserves the relative order" means. */
  lemma {:induction false} FilterConcat<T(!new)>(a: seq<T>, b: seq<T>, p: T -> bool)
    ensures Filter(a + b, p) == Filter(a, p) + Filter(b, p)
  {
    if a == [] {
      assert a + b == b;
    } else {
      assert (a + b)[0] == a[0];
      assert (a + b)[1..] == a[1..] + b;
      FilterConcat(a[1..], b, p);
    }
  }

  /** A filter that keeps everything is the identity. */
  lemma {:induction false} FilterKeepsAll<T(!new)>(s: seq<T>, p: T -> bool)
    requires forall i | 0 <= i < |s| :: p(s[i])
    ensures Filter(s, p) == s
  {
    if s != [] {
      FilterKeepsAll(s[1..], p);
    }
  }

  /** Filtering twice with the same predicate changes nothing more. */
  lemma {:induction false} FilterIdempotent<T(!new)>(s: seq<T>, p: T -> bool)
    ensures Filter(Filter(s, p), p) == Filter(s, p)
  {
    var r := Filter(s, p);
    forall i | 0 <= i < |r| ensures p(r[i]) {
      assert r[i] in r;
    }
    FilterKeepsAll(r, p);
  }

  /** Number of elements of `s` that satisfy `p`. */
  function Count<T(!new)>(s: seq<T>, p: T -> bool): (n: nat)
    ensures n <= |s|
    ensures n == |Filter(s, p)|
  {
    if s == [] then 0
    else (if p(s[0]) then 1 else 0) + Count(s[1..], p)
  }

  /** Nothing is counted exactly when no element satisfies `p`. */
  lemma {:induction false} CountZero<T(!new)>(s: seq<T>, p: T -> bool)
    ensures Count(s, p) == 0 <==> forall i | 0 <= i < |s| :: !p(s[i])
  {
    if s != [] {
      CountZero(s[1..], p);
      assert forall i | 1 <= i < |s| :: s[i] == s[1..][i - 1];
    }
  }

  /** Everything is counted exactly when every element satisfies `p`. */
  lemma {:induction false} CountAll<T(!new)>(s: seq<T>, p: T -> bool)
    ensures Count(s, p) == |s| <==> forall i | 0 <= i < |s| :: p(s[i])
  {
    if s != [] {
      CountAll(s[1..], p);
      assert forall i | 1 <= i < |s| :: s[i] == s[1..][i - 1];
    }
  }

  lemma {:induction false} CountConcat<T(!new)>(a: seq<T>, b: seq<T>, p: T -> bool)
    ensures Count(a + b, p) == Count(a, p) + Count(b, p)
  {
    FilterConcat(a, b, p);
  }

  /** No value occurs twice. */
  predicate NoDup<T(==)>(s: seq<T>) {
    forall i, j | 0 <= i < j < |s| :: s[i] != s[j]
  }

  lemma {:induction false} NoDupFilter<T(!new)>(s: seq<T>, p: T -> bool)
    requires NoDup(s)
    ensures NoDup(Filter(s, p))
  {
    if s != [] {
      NoDupFilter(s[1..], p);
      if p(s[0]) {
        assert s[0] !in s[1..];
        assert s[0] !in Filter(s[1..], p);
      }
    }
  }

  /** A filter keeps every copy of a satisfying element and no copy of
      any other. */
  lemma {:induction false} FilterMultiplicity<T(!new)>(s: seq<T>, p: T -> bool, x: T)
    ensures multiset(Filter(s, p))[x] == if p(x) then multiset(s)[x] else 0
  {
    if s != [] {
      FilterMultiplicity(s[1..], p, x);
      assert s == [s[0]] + s[1..];
    }
  }

  /** `map`: `f` applied to each element, in order. */
  function Map<A, B>(s: seq<A>, f: A -> B): (r: seq<B>)
    ensures |r| == |s| && forall i | 0 <= i < |s| :: r[i] == f(s[i])
  {
    seq(|s|, i requires 0 <= i < |s| => f(s[i]))
  }

  /** Mapping distributes over concatenation. */
  lemma MapConcat<A, B>(a: seq<A>, b: seq<A>, f: A -> B)
    ensures Map(a + b, f) == Map(a, f) + Map(b, f)
  {
    assert forall i | 0 <= i < |a + b| :: Map(a + b, f)[i] == (Map(a, f) + Map(b, f))[i];
  }

  /** The elements of `s` NOT satisfying `p`, in their original order. */
  function Reject<T(!new)>(s: seq<T>, p: T -> bool): (r: seq<T>)
    ensures |r| == |s| - Count(s, p)
    ensures forall x :: x in r <==> x in s && !p(x)
  {
    if s == [] then []
    else if p(s[0]) then Reject(s[1..], p)
    else [s[0]] + Reject(s[1..], p)
  }

  /** Rejecting distributes over concatenation, so the survivors keep
      their relative order. */
  lemma {:induction false} RejectConcat<T(!new)>(a: seq<T>, b: seq<T>, p: T -> bool)
    ensures Reject(a + b, p) == Reject(a, p) + Reject(b, p)
  {
    if a == [] {
      assert a + b == b;
    } else {
      var x, t := a[0], a[1..];
      var head := if p(x) then [] else [x];
      calc {
        Reject(a + b, p);
        == { assert a + b == [x] + (t + b); }
        Reject([x] + (t + b), p);
        == { RejectCons(x, t + b, p); }
        head + Reject(t + b, p);
        == { RejectConcat(t, b, p); }
        head + (Reject(t, p) + Reject(b, p));
        == { SeqAssoc(head, Reject(t, p), Reject(b, p)); }
        (head + Reject(t, p)) + Reject(b, p);
        == { RejectCons(x, t, p); }
        Reject([x] + t, p) + Reject(b, p);
        == { assert [x] + t == a; }
        Reject(a, p) + Reject(b, p);
      }
    }
  }

  lemma SeqAssoc<T>(a: seq<T>, b: seq<T>, c: seq<T>)
    ensures a + (b + c) == (a + b) + c
  {
  }

  lemma RejectCons<T(!new)>(x: T, s: seq<T>, p: T -> bool)
    ensures Reject([x] + s, p) == (if p(x) then [] else [x]) + Reject(s, p)
  {
    assert ([x] + s)[0] == x && ([x] + s)[1..] == s;
  }

  /** Rejecting when nothing matches changes nothing. */
  lemma {:induction false} RejectNone<T(!new)>(s: seq<T>, p: T -> bool)
    requires forall i | 0 <= i < |s| :: !p(s[i])
    ensures Reject(s, p) == s
  {
    if s != [] {
      RejectNone(s[1..], p);
    }
  }

  lemma {:induction false} NoDupReject<T(!new)>(s: seq<T>, p: T -> bool)
    requires NoDup(s)
    ensures NoDup(Reject(s, p))
  {
    if s != [] {
      NoDupReject(s[1..], p);
      assert s[0] !in s[1..];
    }
  }

  /** The test "equals `x`", as a value that can be passed around. */
  function EqualTo<T(==)>(x: T): T -> bool {
    y => y == x
  }

  /** Removing every copy of `x` (the array `filter(y => y !== x)`). */
  function RemoveAll<T(==,!new)>(s: seq<T>, x: T): (r: seq<T>)
    ensures x !in r
    ensures forall y :: y in r <==> y in s && y != x
    ensures |r| == |s| - Count(s, EqualTo(x))
  {
    Reject(s, EqualTo(x))
  }

  /** `s` back to front. */
  function Reverse<T>(s: seq<T>): (r: seq<T>)
    ensures |r| == |s|
    ensures forall i | 0 <= i < |s| :: r[i] == s[|s| - 1 - i]
  {
    if s == [] then [] else Reverse(s[1..]) + [s[0]]
  }

  /** Cutting a tail to `k` and then the whole to `k` is the same as
      cutting the whole to `k` once. */
  lemma TakeAppendTake<T>(a: seq<T>, b: seq<T>, k: nat)
    ensures Take(a + Take(b, k), k) == Take(a + b, k)
  {
  }

  /** The values of `s` in order of first occurrence (the spread of a
      JavaScript `Set` built from `s`). */
  function Distinct<T(==,!new)>(s: seq<T>): (r: seq<T>)
    ensures NoDup(r)
    ensures forall x :: x in r <==> x in s
  {
    DistinctFrom(s, [])
  }

  /** Appends to `acc` the elements of `s` not already seen. */
  function DistinctFrom<T(==,!new)>(s: seq<T>, acc: seq<T>): (r: seq<T>)
    requires NoDup(acc)
    ensures NoDup(r)
    ensures forall x :: x in r <==> x in acc || x in s
    ensures |acc| <= |r| && r[..|acc|] == acc
  {
    if s == [] then acc
    else if s[0] in acc then DistinctFrom(s[1..], acc)
    else DistinctFrom(s[1..], acc + [s[0]])
  }

  /** A list without repeats is no longer than the list it came from. */
  lemma DistinctLength<T(!new)>(s: seq<T>)
    ensures |Distinct(s)| <= |s|
  {
    var d := Distinct(s);
    NoDupSubsetLength(d, s);
  }

  /** A duplicate-free list whose elements all occur in `s` is no longer
      than `s`. */
  lemma {:induction false} NoDupSubsetLength<T>(d: seq<T>, s: seq<T>)
    requires NoDup(d) && forall x | x in d :: x in s
    ensures |d| <= |s|
    decreases |s|
  {
    if d != [] {
      var x := d[0];
      assert x in d;
      var i :| 0 <= i < |s| && s[i] == x;
      var s' := s[..i] + s[i + 1..];
      var d' := d[1..];
      forall y | y in d' ensures y in s' {
        var j :| 0 <= j < |d'| && d'[j] == y;
        assert y != x by { assert d[0] != d[j + 1]; }
        assert y in d;
        var k :| 0 <= k < |s| && s[k] == y;
        if k < i { assert s'[k] == y; } else { assert s'[k - 1] == y; }
      }
      assert NoDup(d') by {
        forall a, b | 0 <= a < b < |d'| ensures d'[a] != d'[b] {
          assert d'[a] == d[a + 1] && d'[b] == d[b + 1];
        }
      }
      NoDupSubsetLength(d', s');
    }
  }

  /** Sum of an integer-valued field over a sequence. */
  function Sum<T>(s: seq<T>, f: T -> int): int {
    if s == [] then 0 else f(s[0]) + Sum(s[1..], f)
  }

  /** The sum lies between |s| times the least and |s| times the greatest term. */
  lemma {:induction false} SumBounds<T>(s: seq<T>, f: T -> int, lo: int, hi: int)
    requires forall i | 0 <= i < |s| :: lo <= f(s[i]) <= hi
    ensures |s| * lo <= Sum(s, f) <= |s| * hi
  {
    if s != [] {
      SumBounds(s[1..], f, lo, hi);
    }
  }

  // ----- stable insertion sort under a total preorder -----

  ghost predicate Total<T(!new)>(le: (T, T) -> bool) {
    forall a, b :: le(a, b) || le(b, a)
  }

  ghost predicate Transitive<T(!new)>(le: (T, T) -> bool) {
    forall a, b, c :: le(a, b) && le(b, c) ==> le(a, c)
  }

  ghost predicate SortedBy<T>(s: seq<T>, le: (T, T) -> bool) {
    forall i, j | 0 <= i < j < |s| :: le(s[i], s[j])
  }

  /** Inserts `x` before the first element it is `le` to, so that it
      stays ahead of the elements it ties with. */
  function Insert<T>(x: T, s: seq<T>, le: (T, T) -> bool): (r: seq<T>)
    ensures |r| == |s| + 1
    ensures multiset(r) == multiset(s) + multiset{x}
  {
    if s == [] then [x]
    else if le(x, s[0]) then [x] + s
    else
      assert s == [s[0]] + s[1..];
      [s[0]] + Insert(x, s[1..], le)
  }

  /** Sequences with the same multiset have the same members. */
  lemma SameMembers<T>(a: seq<T>, b: seq<T>)
    requires multiset(a) == multiset(b)
    ensures forall x :: x in a <==> x in b
  {
    forall x ensures x in a <==> x in b {
      assert x in a <==> x in multiset(a);
      assert x in b <==> x in multiset(b);
    }
  }

  /** Stable sort: equal elements keep their input order, as the
      specification of `Array.prototype.sort` requires. */
  function SortBy<T>(s: seq<T>, le: (T, T) -> bool): (r: seq<T>)
    ensures |r| == |s|
    ensures multiset(r) == multiset(s)
  {
    if s == [] then []
    else
      assert s == [s[0]] + s[1..];
      Insert(s[0], SortBy(s[1..], le), le)
  }

  lemma {:induction false} InsertSorted<T(!new)>(x: T, s: seq<T>, le: (T, T) -> bool)
    requires Total(le) && Transitive(le)
    requires SortedBy(s, le)
    ensures SortedBy(Insert(x, s, le), le)
  {
    if s != [] && !le(x, s[0]) {
      InsertSorted(x, s[1..], le);
      var r := Insert(x, s, le);
      var t := Insert(x, s[1..], le);
      assert r == [s[0]] + t;
      forall j | 0 < j < |r| ensures le(r[0], r[j]) {
        assert r[j] == t[j - 1];
        assert t[j - 1] in multiset(t);
        assert t[j - 1] in multiset(s[1..]) + multiset{x};
        if t[j - 1] == x {
          assert le(s[0], x);
        } else {
          assert t[j - 1] in s[1..];
          var k :| 0 <= k < |s[1..]| && s[1..][k] == t[j - 1];
          assert s[k + 1] == t[j - 1];
        }
      }
    }
  }

  /** The output of SortBy is ordered, for every total preorder. */
  lemma {:induction false} SortBySorted<T(!new)>(s: seq<T>, le: (T, T) -> bool)
    requires Total(le) && Transitive(le)
    ensures SortedBy(SortBy(s, le), le)
  {
    if s != [] {
      SortBySorted(s[1..], le);
      InsertSorted(s[0], SortBy(s[1..], le), le);
    }
  }
}
