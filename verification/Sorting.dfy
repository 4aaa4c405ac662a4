/**
 Stable sorting by a total preorder, as `Array.prototype.sort` does it, with the
 facts the other modules need: the result is a sorted, stable permutation, it is
 unique when no two elements tie, and cutting it commutes with dropping elements
 that cannot reach the cut.
 */
module Sorting {

  ghost predicate TotalPreorder<T(!new)>(le: (T, T) -> bool) {
    && (forall x, y :: le(x, y) || le(y, x))
    && (forall x, y, z :: le(x, y) && le(y, z) ==> le(x, z))
  }

  ghost predicate SortedBy<T>(s: seq<T>, le: (T, T) -> bool) {
    forall i, j :: 0 <= i < j < |s| ==> le(s[i], s[j])
  }

  /** Elements tie only with themselves, and occur once. */
  ghost predicate NoTies<T>(m: multiset<T>, le: (T, T) -> bool) {
    && (forall x :: x in m ==> m[x] == 1)
    && (forall x, y :: x in m && y in m && le(x, y) && le(y, x) ==> x == y)
  }

  function Insert<T>(x: T, s: seq<T>, le: (T, T) -> bool): seq<T> {
    if s == [] || le(x, s[0]) then [x] + s else [s[0]] + Insert(x, s[1..], le)
  }

  function Sort<T>(s: seq<T>, le: (T, T) -> bool): (r: seq<T>)
    ensures |r| == |s|
  {
    if s == [] then [] else InsertSize(s[0], Sort(s[1..], le), le); Insert(s[0], Sort(s[1..], le), le)
  }

  function Filter<T>(s: seq<T>, p: T -> bool): (r: seq<T>)
    ensures |r| <= |s|
  {
    if s == [] then [] else if p(s[0]) then [s[0]] + Filter(s[1..], p) else Filter(s[1..], p)
  }

  function Take<T>(s: seq<T>, n: nat): (r: seq<T>)
    ensures r <= s && |r| == if n <= |s| then n else |s|
  {
    if n <= |s| then s[..n] else s
  }

  lemma {:induction false} InsertSize<T>(x: T, s: seq<T>, le: (T, T) -> bool)
    ensures |Insert(x, s, le)| == |s| + 1
  {
    if s != [] && !le(x, s[0]) { InsertSize(x, s[1..], le); }
  }

  lemma {:induction false} InsertPermutes<T>(x: T, s: seq<T>, le: (T, T) -> bool)
    ensures multiset(Insert(x, s, le)) == multiset{x} + multiset(s)
  {
    if s != [] {
      assert s == [s[0]] + s[1..];
      if !le(x, s[0]) { InsertPermutes(x, s[1..], le); }
    }
  }

  lemma {:induction false} SortPermutes<T>(s: seq<T>, le: (T, T) -> bool)
    ensures multiset(Sort(s, le)) == multiset(s)
  {
    if s != [] {
      assert s == [s[0]] + s[1..];
      SortPermutes(s[1..], le);
      InsertPermutes(s[0], Sort(s[1..], le), le);
    }
  }

  lemma {:induction false} InsertSorted<T(!new)>(x: T, s: seq<T>, le: (T, T) -> bool)
    requires TotalPreorder(le) && SortedBy(s, le)
    ensures SortedBy(Insert(x, s, le), le)
  {
    if s != [] && !le(x, s[0]) {
      InsertSorted(x, s[1..], le);
      InsertPermutes(x, s[1..], le);
      var r := Insert(x, s[1..], le);
      forall j | 0 <= j < |r| ensures le(s[0], r[j]) {
        assert r[j] in multiset(r);
      }
    }
  }

  /** The result is in order. */
  lemma {:induction false} SortSorted<T(!new)>(s: seq<T>, le: (T, T) -> bool)
    requires TotalPreorder(le)
    ensures SortedBy(Sort(s, le), le)
  {
    if s != [] {
      SortSorted(s[1..], le);
      InsertSorted(s[0], Sort(s[1..], le), le);
    }
  }

  /** A sequence already in order is left as it is. */
  lemma {:induction false} SortIdentity<T>(s: seq<T>, le: (T, T) -> bool)
    requires SortedBy(s, le)
    ensures Sort(s, le) == s
  {
    if s != [] {
      assert s == [s[0]] + s[1..];
      SortIdentity(s[1..], le);
      if |s| > 1 { assert le(s[0], s[1]); }
    }
  }

  predicate Tied<T>(x: T, y: T, le: (T, T) -> bool) { le(x, y) && le(y, x) }

  lemma {:induction false} InsertStable<T(!new)>(x: T, s: seq<T>, le: (T, T) -> bool, k: T)
    requires TotalPreorder(le) && SortedBy(s, le)
    ensures Filter(Insert(x, s, le), y => Tied(y, k, le)) == Filter([x] + s, y => Tied(y, k, le))
  {
    var p := y => Tied(y, k, le);
    if s != [] && !le(x, s[0]) {
      InsertStable(x, s[1..], le, k);
      assert ([s[0]] + Insert(x, s[1..], le))[1..] == Insert(x, s[1..], le);
      assert ([x] + s[1..])[1..] == s[1..];
      assert ([x] + s)[1..] == s;
    }
  }

  /** Elements that tie keep their order. */
  lemma {:induction false} SortStable<T(!new)>(s: seq<T>, le: (T, T) -> bool, k: T)
    requires TotalPreorder(le)
    ensures Filter(Sort(s, le), y => Tied(y, k, le)) == Filter(s, y => Tied(y, k, le))
  {
    if s != [] {
      SortStable(s[1..], le, k);
      SortSorted(s[1..], le);
      InsertStable(s[0], Sort(s[1..], le), le, k);
      var t := Sort(s[1..], le);
      assert ([s[0]] + t)[1..] == t;
    }
  }

  lemma {:induction false} TailsMatch<T>(a: seq<T>, b: seq<T>)
    requires a != [] && b != [] && a[0] == b[0] && multiset(a) == multiset(b)
    ensures multiset(a[1..]) == multiset(b[1..]) && multiset(a[1..]) <= multiset(a)
  {
    assert a == [a[0]] + a[1..] && b == [b[0]] + b[1..];
    assert multiset(a[1..]) == multiset(a) - multiset{a[0]};
    assert multiset(b[1..]) == multiset(b) - multiset{b[0]};
  }

  lemma {:induction false} TailSorted<T>(a: seq<T>, le: (T, T) -> bool)
    requires a != [] && SortedBy(a, le)
    ensures SortedBy(a[1..], le)
  {
  }

  lemma {:induction false} SameSize<T>(a: seq<T>, b: seq<T>)
    requires multiset(a) == multiset(b)
    ensures |a| == |b|
  {
    assert |multiset(a)| == |a| && |multiset(b)| == |b|;
  }

  /** Two sorted permutations without ties are the same sequence. */
  lemma {:induction false} SortedUnique<T(!new)>(a: seq<T>, b: seq<T>, le: (T, T) -> bool)
    requires SortedBy(a, le) && SortedBy(b, le)
    requires multiset(a) == multiset(b) && NoTies(multiset(a), le)
    ensures a == b
  {
    SameSize(a, b);
    if a != [] {
      HeadsMeet(a, b, le);
      TailsMatch(a, b);
      TailSorted(a, le);
      TailSorted(b, le);
      NoTiesPart(multiset(a[1..]), multiset(a), le);
      SortedUnique(a[1..], b[1..], le);
      HeadAndTail(a, b);
    }
  }

  lemma {:induction false} HeadAndTail<T>(a: seq<T>, b: seq<T>)
    requires a != [] && b != [] && a[0] == b[0] && a[1..] == b[1..]
    ensures a == b
  {
    assert a == [a[0]] + a[1..] && b == [b[0]] + b[1..];
  }

  lemma {:induction false} HeadsMeet<T>(a: seq<T>, b: seq<T>, le: (T, T) -> bool)
    requires a != [] && b != [] && SortedBy(a, le) && SortedBy(b, le)
    requires multiset(a) == multiset(b) && NoTies(multiset(a), le)
    ensures a[0] == b[0]
  {
    assert a[0] in multiset(b) && b[0] in multiset(a);
    var i :| 0 <= i < |a| && a[i] == b[0];
    var j :| 0 <= j < |b| && b[j] == a[0];
    if i > 0 && j > 0 { assert le(a[0], a[i]) && le(b[0], b[j]); }
  }

  lemma {:induction false} FilterIsPart<T>(s: seq<T>, p: T -> bool)
    ensures multiset(Filter(s, p)) <= multiset(s)
  {
    if s != [] {
      assert s == [s[0]] + s[1..];
      FilterIsPart(s[1..], p);
    }
  }

  lemma {:induction false} FilterInsert<T>(x: T, s: seq<T>, p: T -> bool, le: (T, T) -> bool)
    ensures multiset(Filter(Insert(x, s, le), p)) == multiset(Filter([x] + s, p))
  {
    assert ([x] + s)[1..] == s;
    if s != [] && !le(x, s[0]) {
      FilterInsert(x, s[1..], p, le);
      assert ([x] + s[1..])[1..] == s[1..];
      assert ([s[0]] + Insert(x, s[1..], le))[1..] == Insert(x, s[1..], le);
    }
  }

  lemma {:induction false} FilterMember<T>(s: seq<T>, p: T -> bool, x: T)
    ensures x in Filter(s, p) <==> x in s && p(x)
  {
    if s != [] { FilterMember(s[1..], p, x); }
  }

  lemma {:induction false} FilterConcat<T>(a: seq<T>, b: seq<T>, p: T -> bool)
    ensures Filter(a + b, p) == Filter(a, p) + Filter(b, p)
  {
    if a == [] {
      assert a + b == b;
    } else {
      assert (a + b)[1..] == a[1..] + b;
      FilterConcat(a[1..], b, p);
    }
  }

  lemma {:induction false} FilterSorted<T>(s: seq<T>, p: T -> bool, le: (T, T) -> bool)
    requires SortedBy(s, le)
    ensures SortedBy(Filter(s, p), le)
  {
    if s != [] {
      FilterSorted(s[1..], p, le);
      var r := Filter(s[1..], p);
      forall j | 0 <= j < |r| ensures le(s[0], r[j]) {
        FilterMember(s[1..], p, r[j]);
        var k :| 0 <= k < |s[1..]| && s[1..][k] == r[j];
        assert le(s[0], s[k + 1]);
      }
    }
  }

  /** Without ties the result depends only on which elements there are. */
  lemma {:induction false} SortOfPermutation<T(!new)>(a: seq<T>, b: seq<T>, le: (T, T) -> bool)
    requires TotalPreorder(le)
    requires multiset(a) == multiset(b) && NoTies(multiset(a), le)
    ensures Sort(a, le) == Sort(b, le)
  {
    SortSorted(a, le); SortSorted(b, le);
    SortPermutes(a, le); SortPermutes(b, le);
    SortedUnique(Sort(a, le), Sort(b, le), le);
  }

  lemma {:induction false} SortFilter<T(!new)>(s: seq<T>, p: T -> bool, le: (T, T) -> bool)
    requires TotalPreorder(le) && NoTies(multiset(s), le)
    ensures Sort(Filter(s, p), le) == Filter(Sort(s, le), p)
  {
    var a, b := Sort(Filter(s, p), le), Filter(Sort(s, le), p);
    SortSorted(Filter(s, p), le);
    SortSorted(s, le);
    FilterSorted(Sort(s, le), p, le);
    SortPermutes(Filter(s, p), le);
    FilterSortMultiset(s, p, le);
    FilterIsPart(s, p);
    NoTiesPart(multiset(a), multiset(s), le);
    SortedUnique(a, b, le);
  }

  lemma {:induction false} FilterSortMultiset<T>(s: seq<T>, p: T -> bool, le: (T, T) -> bool)
    ensures multiset(Filter(Sort(s, le), p)) == multiset(Filter(s, p))
  {
    if s != [] {
      var t := Sort(s[1..], le);
      FilterSortMultiset(s[1..], p, le);
      FilterInsert(s[0], t, p, le);
      assert ([s[0]] + t)[1..] == t;
    }
  }

  /** How many elements of `s` come strictly before `x`. */
  ghost function CountBefore<T>(s: seq<T>, x: T, le: (T, T) -> bool): (n: nat)
    ensures n <= |s|
  {
    if s == [] then 0 else (if !le(x, s[0]) then 1 else 0) + CountBefore(s[1..], x, le)
  }

  lemma {:induction false} CountBeforeConcat<T>(a: seq<T>, b: seq<T>, x: T, le: (T, T) -> bool)
    ensures CountBefore(a + b, x, le) == CountBefore(a, x, le) + CountBefore(b, x, le)
  {
    if a == [] {
      assert a + b == b;
    } else {
      assert (a + b)[1..] == a[1..] + b;
      CountBeforeConcat(a[1..], b, x, le);
    }
  }

  lemma {:induction false} CountBeforeAll<T>(s: seq<T>, x: T, le: (T, T) -> bool)
    requires forall y :: y in s ==> !le(x, y)
    ensures CountBefore(s, x, le) == |s|
  {
    if s != [] { CountBeforeAll(s[1..], x, le); }
  }

  lemma {:induction false} CountBeforeInsert<T>(y: T, s: seq<T>, x: T, le: (T, T) -> bool)
    ensures CountBefore(Insert(y, s, le), x, le) == CountBefore([y] + s, x, le)
  {
    assert ([y] + s)[1..] == s;
    if s != [] && !le(y, s[0]) {
      CountBeforeInsert(y, s[1..], x, le);
      assert ([y] + s[1..])[1..] == s[1..];
    }
  }

  lemma {:induction false} CountBeforeSort<T>(s: seq<T>, x: T, le: (T, T) -> bool)
    ensures CountBefore(Sort(s, le), x, le) == CountBefore(s, x, le)
  {
    if s != [] {
      var t := Sort(s[1..], le);
      CountBeforeSort(s[1..], x, le);
      CountBeforeInsert(s[0], t, x, le);
      assert ([s[0]] + t)[1..] == t;
    }
  }

  lemma {:induction false} InsertBeyond<T(!new)>(x: T, s: seq<T>, le: (T, T) -> bool, n: nat)
    requires TotalPreorder(le) && SortedBy(s, le) && n <= CountBefore(s, x, le)
    ensures Take(Insert(x, s, le), n) == Take(s, n)
  {
    InsertSize(x, s, le);
    if n > 0 {
      if le(x, s[0]) {
        forall y | y in s ensures le(x, y) {}
        CountBeforeNone(s, x, le);
        assert false;
      } else {
        InsertBeyond(x, s[1..], le, n - 1);
        var r := Insert(x, s[1..], le);
        InsertSize(x, s[1..], le);
        assert ([s[0]] + r)[..n] == [s[0]] + r[..n - 1];
        assert s[..n] == [s[0]] + s[1..][..n - 1];
      }
    }
  }

  lemma {:induction false} CountBeforeNone<T>(s: seq<T>, x: T, le: (T, T) -> bool)
    requires forall y :: y in s ==> le(x, y)
    ensures CountBefore(s, x, le) == 0
  {
    if s != [] { CountBeforeNone(s[1..], x, le); }
  }

  /** Elements that have `n` others strictly before them do not change the first `n`. */
  lemma {:induction false} TakeIgnoresLate<T(!new)>(late: seq<T>, s: seq<T>, le: (T, T) -> bool, n: nat)
    requires TotalPreorder(le)
    requires forall x :: x in late ==> n <= CountBefore(s, x, le)
    ensures Take(Sort(late + s, le), n) == Take(Sort(s, le), n)
  {
    if late == [] {
      assert late + s == s;
    } else {
      var t := late[1..] + s;
      TakeIgnoresLate(late[1..], s, le, n);
      assert (late + s)[1..] == t;
      CountBeforeConcat(late[1..], s, late[0], le);
      CountBeforeSort(t, late[0], le);
      SortSorted(t, le);
      InsertBeyond(late[0], Sort(t, le), le, n);
    }
  }

  lemma {:induction false} CutIsStrict<T(!new)>(s: seq<T>, k: nat, x: T, le: (T, T) -> bool)
    requires TotalPreorder(le) && SortedBy(s, le) && NoTies(multiset(s), le)
    requires k <= |s| && x in s[k..]
    ensures CountBefore(s[..k], x, le) == k
  {
    var i :| 0 <= i < |s[k..]| && s[k..][i] == x;
    forall y | y in s[..k] ensures !le(x, y) {
      var j :| 0 <= j < k && s[j] == y;
      assert le(s[j], s[k + i]);
      OccursTwice(s, j, k + i);
      assert s[j] in multiset(s) && s[k + i] in multiset(s);
    }
    CountBeforeAll(s[..k], x, le);
  }

  lemma {:induction false} OccursTwice<T>(s: seq<T>, i: nat, j: nat)
    requires i < j < |s|
    ensures s[i] == s[j] ==> multiset(s)[s[i]] >= 2
  {
    assert s == s[..j] + s[j..];
    assert s[i] in s[..j] && s[j] in s[j..];
  }

  lemma {:induction false} NoTiesPart<T>(m: multiset<T>, whole: multiset<T>, le: (T, T) -> bool)
    requires m <= whole && NoTies(whole, le)
    ensures NoTies(m, le)
  {
    forall x | x in m ensures m[x] == 1 { assert x in whole && m[x] <= whole[x]; }
    forall x, y | x in m && y in m && le(x, y) && le(y, x) ensures x == y { assert x in whole && y in whole; }
  }

  lemma {:induction false} LateElements<T(!new)>(s: seq<T>, b: seq<T>, le: (T, T) -> bool, n: nat, x: T)
    requires TotalPreorder(le) && SortedBy(s, le) && NoTies(multiset(s), le)
    requires x in s[|Take(s, n)|..]
    ensures n <= CountBefore(Take(s, n) + b, x, le)
  {
    var top := Take(s, n);
    assert top == s[..|top|];
    CutIsStrict(s, |top|, x, le);
    CountBeforeConcat(top, b, x, le);
  }

  lemma {:induction false} SplitSwap<T>(s: seq<T>, k: nat, b: seq<T>)
    requires k <= |s|
    ensures multiset(s[k..] + (s[..k] + b)) == multiset(s) + multiset(b)
  {
    assert s == s[..k] + s[k..];
  }

  /** The first `n` of a union need only the first `n` of one side. */
  lemma {:induction false} TakeAbsorbs<T(!new)>(a: seq<T>, b: seq<T>, le: (T, T) -> bool, n: nat)
    requires TotalPreorder(le) && NoTies(multiset(a + b), le)
    ensures Take(Sort(Take(Sort(a, le), n) + b, le), n) == Take(Sort(a + b, le), n)
  {
    var s := Sort(a, le);
    var top := Take(s, n);
    var late := s[|top|..];
    assert top == s[..|top|];
    SortSorted(a, le);
    SortPermutes(a, le);
    NoTiesPart(multiset(s), multiset(a + b), le);
    forall x | x in late ensures n <= CountBefore(top + b, x, le) {
      LateElements(s, b, le, n, x);
    }
    TakeIgnoresLate(late, top + b, le, n);
    SplitSwap(s, |top|, b);
    SortOfPermutation(a + b, late + (top + b), le);
  }
}
