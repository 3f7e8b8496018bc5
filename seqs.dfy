/**
 * The array operations the site's data modules and pages are written with:
 * `filter`, `find` and the counts taken as `filter(...).length`, with the
 * facts about them that every catalog lookup relies on.
 */
module Seqs {
  import opened Wrappers

  /** `a` is an order-preserving subsequence of `b`: no insertions, no reordering. */
  ghost predicate IsSubsequence<T>(a: seq<T>, b: seq<T>)
    decreases |b|
  {
    a == [] || (b != [] && ((a[0] == b[0] && IsSubsequence(a[1..], b[1..])) || IsSubsequence(a, b[1..])))
  }

  /** The number of positions of `s` whose element satisfies `p`, counted from the back. */
  function Count<T>(s: seq<T>, p: T -> bool): nat
  {
    if s == [] then 0 else Count(s[..|s| - 1], p) + (if p(s[|s| - 1]) then 1 else 0)
  }

  /** `Array.prototype.filter`: the elements of `s` that satisfy `p`, in source order. */
  function Filter<T>(s: seq<T>, p: T -> bool): (r: seq<T>)
    ensures |r| <= |s|
    ensures forall x :: x in r ==> x in s && p(x)
    ensures forall x :: x in s && p(x) ==> x in r
  {
    if s == [] then []
    else if p(s[0]) then [s[0]] + Filter(s[1..], p)
    else Filter(s[1..], p)
  }

  /** A predicate on elements saying that the key of an element is `k`. */
  function KeyIs<T, K(==)>(key: T -> K, k: K): T -> bool
  {
    x => key(x) == k
  }

  /** The sum, over the keys `ks`, of the number of elements of `s` having each key. */
  function CountPerKey<T, K(==)>(s: seq<T>, key: T -> K, ks: seq<K>): nat
  {
    if ks == [] then 0 else Count(s, KeyIs(key, ks[0])) + CountPerKey(s, key, ks[1..])
  }

  ghost predicate Distinct<T>(s: seq<T>)
  {
    forall i, j :: 0 <= i < j < |s| ==> s[i] != s[j]
  }

  lemma {:induction false} CountCons<T>(x: T, s: seq<T>, p: T -> bool)
    ensures Count([x] + s, p) == (if p(x) then 1 else 0) + Count(s, p)
    decreases |s|
  {
    if s != [] {
      var t := [x] + s;
      assert t[..|t| - 1] == [x] + s[..|s| - 1];
      CountCons(x, s[..|s| - 1], p);
    }
  }

  /** The filter is exactly the matching elements: its length is their number. */
  lemma {:induction false} FilterLength<T>(s: seq<T>, p: T -> bool)
    ensures |Filter(s, p)| == Count(s, p)
    decreases |s|
  {
    if s != [] {
      assert s == [s[0]] + s[1..];
      CountCons(s[0], s[1..], p);
      FilterLength(s[1..], p);
    }
  }

  lemma {:induction false} FilterIsSubsequence<T>(s: seq<T>, p: T -> bool)
    ensures IsSubsequence(Filter(s, p), s)
    decreases |s|
  {
    if s != [] {
      FilterIsSubsequence(s[1..], p);
      var r := Filter(s, p);
      if p(s[0]) {
        assert r[0] == s[0] && r[1..] == Filter(s[1..], p);
      }
    }
  }

  /**
   * Filtering keeps exactly the matching positions, in order: the result is a
   * subsequence of the input, all of whose elements match, and as long as the
   * number of matching positions; such a subsequence is unique.
   */
  lemma FilterExact<T>(s: seq<T>, p: T -> bool)
    ensures IsSubsequence(Filter(s, p), s)
    ensures |Filter(s, p)| == Count(s, p)
    ensures forall x :: x in Filter(s, p) ==> p(x)
  {
    FilterIsSubsequence(s, p);
    FilterLength(s, p);
  }

  /** Filtering a list whose every element matches gives the list back. */
  lemma {:induction false} FilterKeepsAll<T>(s: seq<T>, p: T -> bool)
    requires forall x :: x in s ==> p(x)
    ensures Filter(s, p) == s
    decreases |s|
  {
    if s != [] {
      assert s[0] in s;
      assert forall x :: x in s[1..] ==> x in s;
      FilterKeepsAll(s[1..], p);
      assert s == [s[0]] + s[1..];
    }
  }

  /** Filters with predicates that agree on the list give the same result. */
  lemma {:induction false} FilterCongruent<T>(s: seq<T>, p: T -> bool, q: T -> bool)
    requires forall x :: x in s ==> p(x) == q(x)
    ensures Filter(s, p) == Filter(s, q)
    decreases |s|
  {
    if s != [] {
      assert s[0] in s;
      assert forall x :: x in s[1..] ==> x in s;
      FilterCongruent(s[1..], p, q);
    }
  }

  /** Filtering twice by `p` and then `q` is filtering once by their conjunction `pq`. */
  lemma {:induction false} FilterFilter<T>(s: seq<T>, p: T -> bool, q: T -> bool, pq: T -> bool)
    requires forall x :: pq(x) == (p(x) && q(x))
    ensures Filter(Filter(s, p), q) == Filter(s, pq)
    decreases |s|
  {
    if s != [] {
      FilterFilter(s[1..], p, q, pq);
      if p(s[0]) {
        assert Filter(s, p) == [s[0]] + Filter(s[1..], p);
        assert Filter(s, p)[0] == s[0] && Filter(s, p)[1..] == Filter(s[1..], p);
      }
    }
  }

  /** Filtering a list with a head: the head is kept exactly when it matches. */
  lemma FilterCons<T>(x: T, s: seq<T>, p: T -> bool)
    ensures Filter([x] + s, p) == if p(x) then [x] + Filter(s, p) else Filter(s, p)
  {
    assert ([x] + s)[0] == x && ([x] + s)[1..] == s;
  }

  lemma AppendAssoc<T>(x: seq<T>, y: seq<T>, z: seq<T>)
    ensures x + (y + z) == x + y + z
  {
  }

  /** A prefix of elements that all fail `p` contributes nothing to the filter. */
  lemma {:induction false} FilterSkipsRejected<T>(s: seq<T>, k: nat, p: T -> bool)
    requires k <= |s|
    requires forall i :: 0 <= i < k ==> !p(s[i])
    ensures Filter(s, p) == Filter(s[k..], p)
    decreases k
  {
    if k > 0 {
      assert s[1..][k - 1..] == s[k..];
      FilterSkipsRejected(s[1..], k - 1, p);
    }
  }

  /** Filtering by `q` after a weaker `p` is filtering by `q` alone. */
  lemma FilterNarrower<T>(s: seq<T>, p: T -> bool, q: T -> bool)
    requires forall x :: q(x) ==> p(x)
    ensures Filter(Filter(s, p), q) == Filter(s, q)
  {
    FilterFilter(s, p, q, q);
  }

  /** Re-applying a filter to its own result changes nothing. */
  lemma FilterIdempotent<T>(s: seq<T>, p: T -> bool)
    ensures Filter(Filter(s, p), p) == Filter(s, p)
  {
    FilterKeepsAll(Filter(s, p), p);
  }

  /** The index of the first element satisfying `p`, if any. */
  function FindIndex<T>(s: seq<T>, p: T -> bool): (r: Option<nat>)
    ensures r.Some? ==> r.value < |s| && p(s[r.value])
    ensures r.Some? ==> forall j :: 0 <= j < r.value ==> !p(s[j])
    ensures r.None? ==> forall j :: 0 <= j < |s| ==> !p(s[j])
  {
    if s == [] then None
    else if p(s[0]) then Some(0)
    else match FindIndex(s[1..], p)
      case None => None
      case Some(i) => Some(i + 1)
  }

  /** `Array.prototype.find`: the first element satisfying `p`, or `undefined`. */
  function Find<T>(s: seq<T>, p: T -> bool): (r: Option<T>)
    ensures r.None? <==> forall x :: x in s ==> !p(x)
    ensures r.Some? ==> exists i :: 0 <= i < |s| && s[i] == r.value && p(s[i]) && forall j :: 0 <= j < i ==> !p(s[j])
  {
    match FindIndex(s, p)
    case None => None
    case Some(i) => Some(s[i])
  }

  /** A predicate implied by another counts at least as many positions. */
  lemma {:induction false} CountMonotone<T>(s: seq<T>, p: T -> bool, q: T -> bool)
    requires forall x :: q(x) ==> p(x)
    ensures Count(s, q) <= Count(s, p)
    decreases |s|
  {
    if s != [] {
      CountMonotone(s[..|s| - 1], p, q);
    }
  }

  /** Adding one element to the back adds one to the count of exactly one key. */
  lemma {:induction false} CountPerKeySnoc<T, K>(s: seq<T>, x: T, key: T -> K, ks: seq<K>)
    requires Distinct(ks)
    ensures CountPerKey(s + [x], key, ks) == CountPerKey(s, key, ks) + (if key(x) in ks then 1 else 0)
    decreases |ks|
  {
    if ks != [] {
      assert (s + [x])[..|s + [x]| - 1] == s;
      assert Distinct(ks[1..]) by {
        forall i, j | 0 <= i < j < |ks[1..]| ensures ks[1..][i] != ks[1..][j] {
          assert ks[1..][i] == ks[i + 1] && ks[1..][j] == ks[j + 1];
        }
      }
      CountPerKeySnoc(s, x, key, ks[1..]);
      assert key(x) in ks <==> key(x) == ks[0] || key(x) in ks[1..] by {
        assert ks == [ks[0]] + ks[1..];
      }
      assert ks[0] !in ks[1..] by {
        forall j | 0 <= j < |ks[1..]| ensures ks[1..][j] != ks[0] {
          assert ks[1..][j] == ks[j + 1];
        }
      }
    }
  }

  /**
   * When every element's key is one of the distinct keys `ks`, the per-key
   * counts add up to the length: the keys partition the list.
   */
  lemma {:induction false} CountsPartition<T, K>(s: seq<T>, key: T -> K, ks: seq<K>)
    requires Distinct(ks)
    requires forall x :: x in s ==> key(x) in ks
    ensures CountPerKey(s, key, ks) == |s|
    decreases |s|
  {
    if s == [] {
      EmptyCountPerKey(key, ks);
    } else {
      var init := s[..|s| - 1];
      assert s == init + [s[|s| - 1]];
      assert forall x :: x in init ==> x in s;
      CountsPartition(init, key, ks);
      CountPerKeySnoc(init, s[|s| - 1], key, ks);
    }
  }

  /** For distinct keys, the per-key counts never add up to more than the length. */
  lemma {:induction false} CountsAtMostLength<T, K>(s: seq<T>, key: T -> K, ks: seq<K>)
    requires Distinct(ks)
    ensures CountPerKey(s, key, ks) <= |s|
    decreases |s|
  {
    if s == [] {
      EmptyCountPerKey(key, ks);
    } else {
      var init := s[..|s| - 1];
      assert s == init + [s[|s| - 1]];
      CountsAtMostLength(init, key, ks);
      CountPerKeySnoc(init, s[|s| - 1], key, ks);
    }
  }

  lemma {:induction false} EmptyCountPerKey<T, K>(key: T -> K, ks: seq<K>)
    ensures CountPerKey([], key, ks) == 0
    decreases |ks|
  {
    if ks != [] {
      EmptyCountPerKey(key, ks[1..]);
    }
  }
}
