/**
 * Stable insertion sort and filtering over sequences, by a lexicographic rank.
 * It stands for what SQL's ORDER BY (one or two columns), WHERE and LIMIT do to
 * a table whose rows come in no particular order: a sorted permutation, a
 * subsequence, and a prefix. Two sorted permutations of one bag of rows with
 * distinct ranks are equal, which is what makes a bounded query's answer one.
 */
module Ordering {
  datatype Rank = Rank(major: int, minor: int)

  predicate Less(a: Rank, b: Rank) {
    a.major < b.major || (a.major == b.major && a.minor < b.minor)
  }

  function Insert<T>(x: T, s: seq<T>, rank: T -> Rank): seq<T> {
    if s == [] || Less(rank(x), rank(s[0])) then [x] + s else [s[0]] + Insert(x, s[1..], rank)
  }

  function Sort<T>(s: seq<T>, rank: T -> Rank): seq<T> {
    if s == [] then [] else Insert(s[|s| - 1], Sort(s[..|s| - 1], rank), rank)
  }

  function Filter<T>(s: seq<T>, keep: T -> bool): seq<T> {
    if s == [] then []
    else if keep(s[0]) then [s[0]] + Filter(s[1..], keep) else Filter(s[1..], keep)
  }

  function Take<T>(s: seq<T>, n: nat): seq<T> {
    if n < |s| then s[..n] else s
  }

  ghost predicate Sorted<T(!new)>(s: seq<T>, rank: T -> Rank) {
    forall i, j | 0 <= i < j < |s| :: !Less(rank(s[j]), rank(s[i]))
  }

  /** No two positions share a rank. */
  ghost predicate Distinct<T(!new)>(s: seq<T>, rank: T -> Rank) {
    forall i, j | 0 <= i < j < |s| :: rank(s[i]) != rank(s[j])
  }

  /** Every element kept comes before every element dropped. */
  ghost predicate Downward<T(!new)>(keep: T -> bool, rank: T -> Rank) {
    forall x, y | keep(y) && !Less(rank(y), rank(x)) :: keep(x)
  }

  lemma ConsSorted<T(!new)>(x: T, s: seq<T>, rank: T -> Rank)
    requires Sorted(s, rank)
    requires forall y | y in s :: !Less(rank(y), rank(x))
    ensures Sorted([x] + s, rank)
  {
    var t := [x] + s;
    forall i, j | 0 <= i < j < |t| ensures !Less(rank(t[j]), rank(t[i])) {
      assert t[j] == s[j - 1] && s[j - 1] in s;
    }
  }

  lemma TailSorted<T(!new)>(s: seq<T>, rank: T -> Rank)
    requires Sorted(s, rank) && s != []
    ensures Sorted(s[1..], rank)
    ensures forall y | y in s[1..] :: !Less(rank(y), rank(s[0]))
  {
    forall y | y in s[1..] ensures !Less(rank(y), rank(s[0])) {
      var i :| 0 <= i < |s[1..]| && s[1..][i] == y;
      assert s[i + 1] == y;
    }
  }

  lemma {:induction false} InsertMembers<T(!new)>(x: T, s: seq<T>, rank: T -> Rank)
    ensures multiset(Insert(x, s, rank)) == multiset(s) + multiset{x}
    ensures forall y :: y in Insert(x, s, rank) <==> y == x || y in s
  {
    if s == [] || Less(rank(x), rank(s[0])) {
    } else {
      InsertMembers(x, s[1..], rank);
      assert s == [s[0]] + s[1..];
    }
    assert forall y :: y in Insert(x, s, rank) <==> y in multiset(Insert(x, s, rank));
  }

  lemma {:induction false} InsertSorted<T(!new)>(x: T, s: seq<T>, rank: T -> Rank)
    requires Sorted(s, rank)
    ensures Sorted(Insert(x, s, rank), rank)
  {
    if s == [] {
    } else if Less(rank(x), rank(s[0])) {
      TailSorted(s, rank);
      assert s == [s[0]] + s[1..];
      ConsSorted(x, s, rank);
    } else {
      TailSorted(s, rank);
      InsertSorted(x, s[1..], rank);
      InsertMembers(x, s[1..], rank);
      forall y | y in Insert(x, s[1..], rank) ensures !Less(rank(y), rank(s[0])) {
        assert y == x || y in s[1..];
      }
      ConsSorted(s[0], Insert(x, s[1..], rank), rank);
    }
  }

  lemma {:induction false} SortSorted<T(!new)>(s: seq<T>, rank: T -> Rank)
    ensures Sorted(Sort(s, rank), rank)
    ensures multiset(Sort(s, rank)) == multiset(s)
    ensures |Sort(s, rank)| == |s|
  {
    if s != [] {
      SortSorted(s[..|s| - 1], rank);
      InsertSorted(s[|s| - 1], Sort(s[..|s| - 1], rank), rank);
      InsertMembers(s[|s| - 1], Sort(s[..|s| - 1], rank), rank);
      assert s == s[..|s| - 1] + [s[|s| - 1]];
    }
    assert |multiset(Sort(s, rank))| == |multiset(s)|;
  }

  lemma {:induction false} FilterAppend<T(!new)>(a: seq<T>, b: seq<T>, keep: T -> bool)
    ensures Filter(a + b, keep) == Filter(a, keep) + Filter(b, keep)
  {
    if a == [] {
      assert a + b == b;
    } else {
      assert (a + b)[1..] == a[1..] + b;
      FilterAppend(a[1..], b, keep);
    }
  }

  lemma FilterAt<T(!new)>(s: seq<T>, k: nat, keep: T -> bool)
    requires k <= |s|
    ensures Filter(s, keep) == Filter(s[..k], keep) + Filter(s[k..], keep)
  {
    var a, b := s[..k], s[k..];
    assert s == a + b;
    FilterAppend(a, b, keep);
  }

  lemma {:induction false} FilterIn<T(!new)>(s: seq<T>, keep: T -> bool)
    ensures forall x :: x in Filter(s, keep) <==> x in s && keep(x)
  {
    if s != [] {
      FilterIn(s[1..], keep);
      assert s == [s[0]] + s[1..];
    }
  }

  lemma {:induction false} FilterSorted<T(!new)>(s: seq<T>, keep: T -> bool, rank: T -> Rank)
    requires Sorted(s, rank)
    ensures Sorted(Filter(s, keep), rank)
  {
    if s != [] {
      TailSorted(s, rank);
      FilterSorted(s[1..], keep, rank);
      FilterIn(s[1..], keep);
      if keep(s[0]) {
        forall y | y in Filter(s[1..], keep) ensures !Less(rank(y), rank(s[0])) {
          assert y in s[1..];
        }
        ConsSorted(s[0], Filter(s[1..], keep), rank);
      }
    }
  }

  lemma {:induction false} InsertFilter<T(!new)>(x: T, s: seq<T>, keep: T -> bool, rank: T -> Rank)
    requires Sorted(s, rank)
    ensures Filter(Insert(x, s, rank), keep)
         == if keep(x) then Insert(x, Filter(s, keep), rank) else Filter(s, keep)
  {
    if s == [] {
    } else if Less(rank(x), rank(s[0])) {
      assert ([x] + s)[1..] == s;
      FilterIn(s, keep);
      TailSorted(s, rank);
      var kept := Filter(s, keep);
      if kept != [] {
        assert kept[0] in kept;
        assert kept[0] in s && s == [s[0]] + s[1..];
        assert Less(rank(x), rank(kept[0]));
      }
    } else {
      TailSorted(s, rank);
      assert Insert(x, s, rank)[1..] == Insert(x, s[1..], rank);
      InsertFilter(x, s[1..], keep, rank);
    }
  }

  /** WHERE and ORDER BY commute. */
  lemma {:induction false} SortFilter<T(!new)>(s: seq<T>, keep: T -> bool, rank: T -> Rank)
    ensures Sort(Filter(s, keep), rank) == Filter(Sort(s, rank), keep)
  {
    if s != [] {
      var front, last := s[..|s| - 1], s[|s| - 1];
      assert s == front + [last];
      FilterAppend(front, [last], keep);
      SortFilter(front, keep, rank);
      SortSorted(front, rank);
      InsertFilter(last, Sort(front, rank), keep, rank);
      if keep(last) {
        assert Filter([last], keep) == [last];
        assert Filter(s, keep) == Filter(front, keep) + [last];
        assert Filter(s, keep)[..|Filter(s, keep)| - 1] == Filter(front, keep);
      } else {
        assert Filter([last], keep) == [] && Filter(s, keep) == Filter(front, keep);
      }
    }
  }

  lemma TakeCons<T(!new)>(a: T, s: seq<T>, k: nat)
    requires k > 0
    ensures Take([a] + s, k) == [a] + Take(s, k - 1)
  {
  }

  /** The k smallest of s with x added are the k smallest of (the k smallest of s) with x added. */
  lemma {:induction false} InsertTake<T(!new)>(x: T, s: seq<T>, k: nat, rank: T -> Rank)
    ensures Take(Insert(x, s, rank), k) == Take(Insert(x, Take(s, k), rank), k)
  {
    if k == 0 || s == [] {
    } else {
      assert s == [s[0]] + s[1..];
      TakeCons(s[0], s[1..], k);
      if Less(rank(x), rank(s[0])) {
        TakeCons(x, s, k);
        TakeCons(x, Take(s, k), k);
      } else {
        InsertTake(x, s[1..], k - 1, rank);
        TakeCons(s[0], Insert(x, s[1..], rank), k);
        InsertTakeLater(x, s[0], Take(s[1..], k - 1), k, rank);
      }
    }
  }

  lemma InsertTakeLater<T(!new)>(x: T, a: T, s: seq<T>, k: nat, rank: T -> Rank)
    requires k > 0 && !Less(rank(x), rank(a))
    ensures Take(Insert(x, [a] + s, rank), k) == [a] + Take(Insert(x, s, rank), k - 1)
  {
    assert ([a] + s)[1..] == s;
    TakeCons(a, Insert(x, s, rank), k);
  }

  /** Keeping a downward-closed part of a sorted sequence keeps a prefix of it. */
  lemma {:induction false} FilterPrefix<T(!new)>(s: seq<T>, keep: T -> bool, rank: T -> Rank)
    requires Sorted(s, rank) && Downward(keep, rank)
    ensures |Filter(s, keep)| <= |s| && Filter(s, keep) == s[..|Filter(s, keep)|]
    ensures forall i | |Filter(s, keep)| <= i < |s| :: !keep(s[i])
  {
    if s != [] {
      FilterPrefix(s[1..], keep, rank);
      if !keep(s[0]) {
        assert forall i | 0 <= i < |s| :: !keep(s[i]);
        FilterNone(s, keep);
      }
    }
  }

  lemma {:induction false} FilterNone<T(!new)>(s: seq<T>, keep: T -> bool)
    requires forall x | x in s :: !keep(x)
    ensures Filter(s, keep) == []
  {
    if s != [] {
      assert s[0] in s;
      FilterNone(s[1..], keep);
    }
  }

  lemma {:induction false} FilterAll<T(!new)>(s: seq<T>, keep: T -> bool)
    requires forall x | x in s :: keep(x)
    ensures Filter(s, keep) == s
  {
    if s != [] {
      FilterAll(s[1..], keep);
    }
  }

  lemma Twice<T(!new)>(s: seq<T>, i: nat, j: nat)
    requires i < j < |s| && s[i] == s[j]
    ensures multiset(s)[s[i]] >= 2
  {
    assert s == s[..i] + [s[i]] + s[i + 1..j] + [s[j]] + s[j + 1..];
  }

  lemma {:induction false} FilterAgree<T(!new)>(s: seq<T>, p: T -> bool, q: T -> bool)
    requires forall x | x in s :: p(x) == q(x)
    ensures Filter(s, p) == Filter(s, q)
  {
    if s != [] {
      FilterAgree(s[1..], p, q);
    }
  }

  /** Splitting a kept part in two loses no occurrence and adds none. */
  lemma {:induction false} FilterSplit<T(!new)>(s: seq<T>, whole: T -> bool, one: T -> bool, two: T -> bool)
    requires forall x | x in s :: whole(x) == (one(x) || two(x)) && !(one(x) && two(x))
    ensures multiset(Filter(s, whole)) == multiset(Filter(s, one)) + multiset(Filter(s, two))
  {
    if s != [] {
      FilterSplit(s[1..], whole, one, two);
    }
  }

  lemma {:induction false} FilterCount<T(!new)>(s: seq<T>, keep: T -> bool, x: T)
    ensures multiset(Filter(s, keep))[x] == if keep(x) then multiset(s)[x] else 0
  {
    if s != [] {
      FilterCount(s[1..], keep, x);
      assert s == [s[0]] + s[1..];
    }
  }

  /** Filtering does not depend on how the rows are arranged. */
  lemma FilterRearranged<T(!new)>(a: seq<T>, b: seq<T>, keep: T -> bool)
    requires multiset(a) == multiset(b)
    ensures multiset(Filter(a, keep)) == multiset(Filter(b, keep))
  {
    forall x ensures multiset(Filter(a, keep))[x] == multiset(Filter(b, keep))[x] {
      FilterCount(a, keep, x);
      FilterCount(b, keep, x);
    }
  }

  lemma {:induction false} FilterTwice<T(!new)>(s: seq<T>, p: T -> bool, q: T -> bool, both: T -> bool)
    requires forall x | x in s :: both(x) == (p(x) && q(x))
    ensures Filter(Filter(s, p), q) == Filter(s, both)
  {
    if s != [] {
      FilterTwice(s[1..], p, q, both);
    }
  }

  lemma SameHead<T(!new)>(a: seq<T>, b: seq<T>, rank: T -> Rank)
    requires Sorted(a, rank) && Sorted(b, rank) && Distinct(a, rank)
    requires a != [] && b != [] && multiset(a) == multiset(b)
    ensures a[0] == b[0]
  {
    assert a[0] in multiset(b) && b[0] in multiset(a);
    var i :| 0 <= i < |a| && a[i] == b[0];
    var j :| 0 <= j < |b| && b[j] == a[0];
  }

  lemma SameTail<T(!new)>(a: seq<T>, b: seq<T>)
    requires a != [] && b != [] && a[0] == b[0] && multiset(a) == multiset(b)
    ensures multiset(a[1..]) == multiset(b[1..])
  {
    assert a == [a[0]] + a[1..] && b == [b[0]] + b[1..];
    assert multiset(a[1..]) == multiset(a) - multiset{a[0]};
    assert multiset(b[1..]) == multiset(b) - multiset{a[0]};
  }

  /** With distinct ranks there is one sorted arrangement. */
  lemma {:induction false} SortedUnique<T(!new)>(a: seq<T>, b: seq<T>, rank: T -> Rank)
    requires Sorted(a, rank) && Sorted(b, rank) && Distinct(a, rank)
    requires multiset(a) == multiset(b)
    ensures a == b
  {
    assert |multiset(a)| == |a| && |multiset(b)| == |b|;
    if a != [] {
      SameHead(a, b, rank);
      SameTail(a, b);
      TailSorted(a, rank);
      TailSorted(b, rank);
      SortedUnique(a[1..], b[1..], rank);
      assert a == [a[0]] + a[1..] && b == [b[0]] + b[1..];
    }
  }
}
