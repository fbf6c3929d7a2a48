/** Generic sequence utilities shared by the board model: the
    `Array.prototype.filter` of the source, the subsequence relation, and
    the stable sort that `Array.prototype.sort` is required to be
    (ECMAScript 2019 and later). */
module Seqs {

  /** The elements of `s` that satisfy `p`, in their original order. */
  function Filter<T(!new)>(p: T -> bool, s: seq<T>): (r: seq<T>)
    ensures |r| <= |s|
    ensures forall x :: x in r <==> x in s && p(x)
  {
    if s == [] then []
    else (if p(s[0]) then [s[0]] else []) + Filter(p, s[1..])
  }

  /** The number of elements of `s` satisfying `p` (`s.filter(p).length`). */
  function CountWhere<T(!new)>(p: T -> bool, s: seq<T>): nat
  {
    |Filter(p, s)|
  }

  /** `a` can be obtained from `b` by deleting elements (order kept). */
  predicate SubsequenceOf<T(==)>(a: seq<T>, b: seq<T>)
  {
    if a == [] then true
    else if b == [] then false
    else if a[0] == b[0] then SubsequenceOf(a[1..], b[1..])
    else SubsequenceOf(a, b[1..])
  }

  lemma {:induction false} FilterCons<T(!new)>(p: T -> bool, x: T, s: seq<T>)
    ensures Filter(p, [x] + s) == (if p(x) then [x] else []) + Filter(p, s)
  {
    assert ([x] + s)[0] == x;
    assert ([x] + s)[1..] == s;
  }

  lemma {:induction false} FilterAppend<T(!new)>(p: T -> bool, a: seq<T>, b: seq<T>)
    ensures Filter(p, a + b) == Filter(p, a) + Filter(p, b)
    decreases |a|
  {
    if a == [] {
      assert a + b == b;
    } else {
      assert (a + b)[0] == a[0];
      assert (a + b)[1..] == a[1..] + b;
      FilterAppend(p, a[1..], b);
    }
  }

  /** Filtering keeps the original relative order: the result is a
      subsequence of the input. */
  lemma {:induction false} FilterIsSubsequence<T(!new)>(p: T -> bool, s: seq<T>)
    ensures SubsequenceOf(Filter(p, s), s)
    decreases |s|
  {
    if s != [] {
      FilterIsSubsequence(p, s[1..]);
      var r := Filter(p, s);
      if p(s[0]) {
        assert r == [s[0]] + Filter(p, s[1..]);
        assert r[1..] == Filter(p, s[1..]);
      } else {
        assert r == Filter(p, s[1..]);
        if r != [] {
          assert p(r[0]);
        }
      }
    }
  }

  /** A filter whose predicate holds everywhere returns its input. */
  lemma {:induction false} FilterAll<T(!new)>(p: T -> bool, s: seq<T>)
    requires forall x :: x in s ==> p(x)
    ensures Filter(p, s) == s
    decreases |s|
  {
    if s != [] {
      assert s[0] in s;
      assert forall x :: x in s[1..] ==> x in s;
      FilterAll(p, s[1..]);
      assert [s[0]] + s[1..] == s;
    }
  }

  /** Every element is kept by exactly one of two complementary filters. */
  lemma {:induction false} FilterComplement<T(!new)>(p: T -> bool, q: T -> bool, s: seq<T>)
    requires forall x :: q(x) == !p(x)
    ensures |Filter(p, s)| + |Filter(q, s)| == |s|
    decreases |s|
  {
    if s != [] {
      FilterComplement(p, q, s[1..]);
    }
  }

  /** `s.findIndex(p)`: the first index whose element satisfies `p`, or -1. */
  function FirstWhere<T>(p: T -> bool, s: seq<T>): (r: int)
    ensures -1 <= r < |s|
    ensures r >= 0 ==> p(s[r])
    ensures forall j :: 0 <= j < |s| && (r == -1 || j < r) ==> !p(s[j])
  {
    if s == [] then -1
    else if p(s[0]) then 0
    else
      var r := FirstWhere(p, s[1..]);
      if r == -1 then -1 else r + 1
  }

  /** A filter whose predicate holds nowhere returns the empty sequence. */
  lemma FilterNone<T(!new)>(p: T -> bool, s: seq<T>)
    requires forall x :: x in s ==> !p(x)
    ensures Filter(p, s) == []
  {
    if Filter(p, s) != [] {
      assert Filter(p, s)[0] in Filter(p, s);
    }
  }

  // ---------------------------------------------------------------------
  // Stable sort by a real-valued key

  /** `s` is ascending by `key`. */
  ghost predicate SortedBy<T(!new)>(key: T -> real, s: seq<T>)
  {
    forall i, j :: 0 <= i < j < |s| ==> key(s[i]) <= key(s[j])
  }

  /** The predicate "has key k", named so that every use is the same term. */
  function KeyIs<T(!new)>(key: T -> real, k: real): T -> bool
  {
    x => key(x) == k
  }

  /** Insert `x` in front of the first element whose key is not smaller. */
  function Insert<T(!new)>(key: T -> real, x: T, s: seq<T>): seq<T>
  {
    if s == [] || key(x) <= key(s[0]) then [x] + s
    else [s[0]] + Insert(key, x, s[1..])
  }

  /** Insertion sort ascending by `key`; elements with equal keys keep their
      input order. */
  function SortBy<T(!new)>(key: T -> real, s: seq<T>): seq<T>
  {
    if s == [] then [] else Insert(key, s[0], SortBy(key, s[1..]))
  }

  lemma {:induction false} InsertPermutes<T(!new)>(key: T -> real, x: T, s: seq<T>)
    ensures multiset(Insert(key, x, s)) == multiset(s) + multiset{x}
    ensures |Insert(key, x, s)| == |s| + 1
    decreases |s|
  {
    if s != [] && key(s[0]) < key(x) {
      InsertPermutes(key, x, s[1..]);
      assert s == [s[0]] + s[1..];
    }
  }

  lemma {:induction false} InsertSorted<T(!new)>(key: T -> real, x: T, s: seq<T>)
    requires SortedBy(key, s)
    ensures SortedBy(key, Insert(key, x, s))
    decreases |s|
  {
    if s != [] && key(s[0]) < key(x) {
      var t := Insert(key, x, s[1..]);
      InsertSorted(key, x, s[1..]);
      forall y | y in s[1..] ensures key(s[0]) <= key(y) {
        var j :| 0 <= j < |s[1..]| && s[1..][j] == y;
        assert s[j + 1] == y;
      }
      InsertBelow(key, x, s[1..], key(s[0]));
      SortedCons(key, s[0], t);
    }
  }

  /** A bound below every element and below `x` stays below after inserting. */
  lemma InsertBelow<T(!new)>(key: T -> real, x: T, s: seq<T>, b: real)
    requires forall y :: y in s ==> b <= key(y)
    requires b <= key(x)
    ensures forall y :: y in Insert(key, x, s) ==> b <= key(y)
  {
    InsertPermutes(key, x, s);
    forall y | y in Insert(key, x, s) ensures b <= key(y) {
      assert y in multiset(Insert(key, x, s));
      assert y in multiset(s) + multiset{x};
    }
  }

  /** A sorted list with an element no larger in front stays sorted. */
  lemma SortedCons<T(!new)>(key: T -> real, a: T, t: seq<T>)
    requires SortedBy(key, t)
    requires forall y :: y in t ==> key(a) <= key(y)
    ensures SortedBy(key, [a] + t)
  {
    forall i, j | 0 <= i < j < |[a] + t| ensures key(([a] + t)[i]) <= key(([a] + t)[j]) {
      assert ([a] + t)[j] == t[j - 1];
      if i == 0 {
        assert t[j - 1] in t;
      } else {
        assert ([a] + t)[i] == t[i - 1];
      }
    }
  }

  lemma {:induction false} SortByPermutes<T(!new)>(key: T -> real, s: seq<T>)
    ensures multiset(SortBy(key, s)) == multiset(s)
    ensures |SortBy(key, s)| == |s|
    decreases |s|
  {
    if s != [] {
      SortByPermutes(key, s[1..]);
      InsertPermutes(key, s[0], SortBy(key, s[1..]));
      assert s == [s[0]] + s[1..];
    }
  }

  lemma {:induction false} SortBySorted<T(!new)>(key: T -> real, s: seq<T>)
    ensures SortedBy(key, SortBy(key, s))
    decreases |s|
  {
    if s != [] {
      SortBySorted(key, s[1..]);
      InsertSorted(key, s[0], SortBy(key, s[1..]));
    }
  }

  lemma {:induction false} InsertStable<T(!new)>(key: T -> real, x: T, s: seq<T>, k: real)
    ensures Filter(KeyIs(key, k), Insert(key, x, s)) == Filter(KeyIs(key, k), [x] + s)
    decreases |s|
  {
    var p := KeyIs(key, k);
    if s != [] && key(s[0]) < key(x) {
      InsertStable(key, x, s[1..], k);
      FilterCons(p, s[0], Insert(key, x, s[1..]));
      FilterCons(p, x, s[1..]);
      FilterCons(p, x, s);
      assert s == [s[0]] + s[1..];
      FilterCons(p, s[0], s[1..]);
    }
  }

  /** Stability: for every key value, the elements carrying it appear in the
      sorted output exactly as they appear in the input. */
  lemma {:induction false} SortByStable<T(!new)>(key: T -> real, s: seq<T>, k: real)
    ensures Filter(KeyIs(key, k), SortBy(key, s)) == Filter(KeyIs(key, k), s)
    decreases |s|
  {
    if s != [] {
      var p := KeyIs(key, k);
      SortByStable(key, s[1..], k);
      InsertStable(key, s[0], SortBy(key, s[1..]), k);
      FilterCons(p, s[0], SortBy(key, s[1..]));
      FilterCons(p, s[0], s[1..]);
      assert s == [s[0]] + s[1..];
    }
  }

  /** A key-`k` filter of a sequence headed by an element with key `k`
      starts with that element. */
  lemma HeadOfKeyFilter<T(!new)>(key: T -> real, a: seq<T>)
    requires a != []
    ensures Filter(KeyIs(key, key(a[0])), a) != []
    ensures Filter(KeyIs(key, key(a[0])), a)[0] == a[0]
  {
    var p := KeyIs(key, key(a[0]));
    assert p(a[0]);
    assert Filter(p, a) == [a[0]] + Filter(p, a[1..]);
  }

  /** Every element of a key-`k` filter carries key `k` and comes from the
      filtered sequence. */
  lemma InKeyFilter<T(!new)>(key: T -> real, k: real, a: seq<T>, x: T)
    requires x in Filter(KeyIs(key, k), a)
    ensures x in a && key(x) == k
  {
    assert KeyIs(key, k)(x);
  }

  /** The head of a sorted sequence has the least key. */
  lemma SortedHeadLeast<T(!new)>(key: T -> real, a: seq<T>, x: T)
    requires SortedBy(key, a) && x in a
    ensures key(a[0]) <= key(x)
  {
    var i :| 0 <= i < |a| && a[i] == x;
    if i > 0 {
      assert key(a[0]) <= key(a[i]);
    }
  }

  /** Two sorted sequences that agree key by key have the same head. */
  lemma SameHead<T(!new)>(key: T -> real, a: seq<T>, b: seq<T>)
    requires a != [] && b != []
    requires SortedBy(key, a) && SortedBy(key, b)
    requires Filter(KeyIs(key, key(a[0])), a) == Filter(KeyIs(key, key(a[0])), b)
    requires Filter(KeyIs(key, key(b[0])), a) == Filter(KeyIs(key, key(b[0])), b)
    ensures a[0] == b[0]
  {
    HeadOfKeyFilter(key, a);
    HeadOfKeyFilter(key, b);
    var fa := Filter(KeyIs(key, key(a[0])), b);
    assert fa[0] in fa;
    InKeyFilter(key, key(a[0]), b, fa[0]);
    SortedHeadLeast(key, b, fa[0]);
    var fb := Filter(KeyIs(key, key(b[0])), a);
    assert fb[0] in fb;
    InKeyFilter(key, key(b[0]), a, fb[0]);
    SortedHeadLeast(key, a, fb[0]);
    assert key(a[0]) == key(b[0]);
  }

  /** Agreement key by key carries over from two sequences with a common
      head to their tails. */
  lemma TailsAgree<T(!new)>(key: T -> real, a: seq<T>, b: seq<T>, k: real)
    requires a != [] && b != [] && a[0] == b[0]
    requires Filter(KeyIs(key, k), a) == Filter(KeyIs(key, k), b)
    ensures Filter(KeyIs(key, k), a[1..]) == Filter(KeyIs(key, k), b[1..])
  {
    var p := KeyIs(key, k);
    var h := if p(a[0]) then [a[0]] else [];
    assert Filter(p, a) == h + Filter(p, a[1..]);
    assert Filter(p, b) == h + Filter(p, b[1..]);
    assert Filter(p, a[1..]) == (h + Filter(p, a[1..]))[|h|..];
  }

  /** Two sequences that are both sorted by `key` and that agree, key by key,
      on the elements carrying that key, are equal. */
  lemma {:induction false} StableSortedUnique<T(!new)>(key: T -> real, a: seq<T>, b: seq<T>)
    requires SortedBy(key, a) && SortedBy(key, b)
    requires forall k :: Filter(KeyIs(key, k), a) == Filter(KeyIs(key, k), b)
    ensures a == b
    decreases |a|
  {
    if a != [] && b == [] {
      HeadOfKeyFilter(key, a);
    } else if a == [] && b != [] {
      HeadOfKeyFilter(key, b);
    } else if a != [] && b != [] {
      SameHead(key, a, b);
      forall k ensures Filter(KeyIs(key, k), a[1..]) == Filter(KeyIs(key, k), b[1..]) {
        TailsAgree(key, a, b, k);
      }
      StableSortedUnique(key, a[1..], b[1..]);
      assert a == [a[0]] + a[1..];
      assert b == [b[0]] + b[1..];
    }
  }

  /** Any stable sort agrees with `SortBy`: a sequence sorted by `key` that
      keeps, for every key, the input order of the elements carrying it is
      `SortBy(key, s)`. So modelling the host's stable sort by insertion sort
      loses nothing. */
  lemma StableSortIsSortBy<T(!new)>(key: T -> real, s: seq<T>, r: seq<T>)
    requires SortedBy(key, r)
    requires forall k :: Filter(KeyIs(key, k), r) == Filter(KeyIs(key, k), s)
    ensures r == SortBy(key, s)
  {
    SortBySorted(key, s);
    forall k ensures Filter(KeyIs(key, k), r) == Filter(KeyIs(key, k), SortBy(key, s)) {
      SortByStable(key, s, k);
    }
    StableSortedUnique(key, r, SortBy(key, s));
  }

  // ---------------------------------------------------------------------
  // Duplicate-freedom and sums, and what the sort keeps of them

  predicate NoDuplicates<T(==)>(s: seq<T>)
  {
    forall i, j :: 0 <= i < j < |s| ==> s[i] != s[j]
  }

  lemma NoDuplicatesCons<T>(x: T, s: seq<T>)
    ensures NoDuplicates([x] + s) <==> x !in s && NoDuplicates(s)
  {
    var r := [x] + s;
    if x !in s && NoDuplicates(s) {
      forall i, j | 0 <= i < j < |r| ensures r[i] != r[j] {
        assert r[j] == s[j - 1];
        if i > 0 { assert r[i] == s[i - 1]; }
      }
    }
    if NoDuplicates(r) {
      forall i, j | 0 <= i < j < |s| ensures s[i] != s[j] {
        assert s[i] == r[i + 1] && s[j] == r[j + 1];
      }
      forall k | 0 <= k < |s| ensures s[k] != x {
        assert s[k] == r[k + 1] && r[0] == x;
      }
    }
  }

  lemma {:induction false} InsertNoDuplicates<T(!new)>(key: T -> real, x: T, s: seq<T>)
    requires NoDuplicates(s) && x !in s
    ensures NoDuplicates(Insert(key, x, s))
    decreases |s|
  {
    if s == [] || key(x) <= key(s[0]) {
      NoDuplicatesCons(x, s);
    } else {
      NoDuplicatesCons(s[0], s[1..]);
      assert s == [s[0]] + s[1..];
      InsertNoDuplicates(key, x, s[1..]);
      InsertPermutes(key, x, s[1..]);
      assert s[0] !in multiset(Insert(key, x, s[1..]));
      NoDuplicatesCons(s[0], Insert(key, x, s[1..]));
    }
  }

  /** Sorting a list without duplicates gives a list without duplicates. */
  lemma {:induction false} SortByNoDuplicates<T(!new)>(key: T -> real, s: seq<T>)
    requires NoDuplicates(s)
    ensures NoDuplicates(SortBy(key, s))
    decreases |s|
  {
    if s != [] {
      NoDuplicatesCons(s[0], s[1..]);
      assert s == [s[0]] + s[1..];
      SortByNoDuplicates(key, s[1..]);
      SortByPermutes(key, s[1..]);
      assert s[0] !in multiset(SortBy(key, s[1..]));
      InsertNoDuplicates(key, s[0], SortBy(key, s[1..]));
    }
  }

  /** The sum of `f` over `s`. */
  function Sum<T>(f: T -> nat, s: seq<T>): nat
  {
    if s == [] then 0 else f(s[0]) + Sum(f, s[1..])
  }

  lemma {:induction false} SumAppend<T>(f: T -> nat, a: seq<T>, b: seq<T>)
    ensures Sum(f, a + b) == Sum(f, a) + Sum(f, b)
    decreases |a|
  {
    if a == [] {
      assert a + b == b;
    } else {
      assert (a + b)[1..] == a[1..] + b;
      SumAppend(f, a[1..], b);
    }
  }

  lemma {:induction false} InsertSum<T(!new)>(key: T -> real, f: T -> nat, x: T, s: seq<T>)
    ensures Sum(f, Insert(key, x, s)) == f(x) + Sum(f, s)
    decreases |s|
  {
    if s != [] && key(s[0]) < key(x) {
      InsertSum(key, f, x, s[1..]);
      assert Insert(key, x, s)[1..] == Insert(key, x, s[1..]);
    } else {
      assert ([x] + s)[1..] == s;
    }
  }

  /** Sorting does not change a sum. */
  lemma {:induction false} SortBySum<T(!new)>(key: T -> real, f: T -> nat, s: seq<T>)
    ensures Sum(f, SortBy(key, s)) == Sum(f, s)
    decreases |s|
  {
    if s != [] {
      SortBySum(key, f, s[1..]);
      InsertSum(key, f, s[0], SortBy(key, s[1..]));
    }
  }
}
