/** List operations the pipeline performs through Python built-ins: comprehensions with a
    condition, dict comprehensions, and the stable `sorted`. */
module Sequences {
  import opened Wrappers

  /** `a` is `b` with some elements left out, the rest in their original order. */
  predicate IsSubsequence<T(==)>(a: seq<T>, b: seq<T>)
    decreases |b|
  {
    |a| == 0 || (|b| > 0 && ((a[0] == b[0] && IsSubsequence(a[1..], b[1..])) || IsSubsequence(a, b[1..])))
  }

  /** `[x for x in xs if p(x)]`. */
  function Filter<T(!new)>(xs: seq<T>, p: T -> bool): (r: seq<T>)
    ensures |r| <= |xs|
    ensures forall x :: x in r <==> x in xs && p(x)
    decreases |xs|
  {
    if |xs| == 0 then []
    else
      var rest := Filter(xs[1..], p);
      assert xs == [xs[0]] + xs[1..];
      if p(xs[0]) then [xs[0]] + rest else rest
  }

  /** Filtering keeps every occurrence of a kept value and none of a dropped one. */
  lemma {:induction false} FilterMultiset<T(!new)>(xs: seq<T>, p: T -> bool)
    ensures forall x :: multiset(Filter(xs, p))[x] == if p(x) then multiset(xs)[x] else 0
    decreases |xs|
  {
    if |xs| > 0 {
      FilterMultiset(xs[1..], p);
      assert xs == [xs[0]] + xs[1..];
    }
  }

  /** Filtering keeps a subsequence: nothing is added, duplicated or reordered. */
  lemma {:induction false} FilterSubsequence<T(!new)>(xs: seq<T>, p: T -> bool)
    ensures IsSubsequence(Filter(xs, p), xs)
    decreases |xs|
  {
    if |xs| > 0 {
      FilterSubsequence(xs[1..], p);
      var rest := Filter(xs[1..], p);
      if p(xs[0]) {
        assert ([xs[0]] + rest)[1..] == rest;
      }
    }
  }

  lemma {:induction false} IsSubsequenceReflexive<T>(xs: seq<T>)
    ensures IsSubsequence(xs, xs)
    decreases |xs|
  {
    if |xs| > 0 {
      IsSubsequenceReflexive(xs[1..]);
    }
  }

  /** Filtering twice keeps what both conditions keep. */
  lemma {:induction false} FilterTwice<T(!new)>(xs: seq<T>, p: T -> bool, q: T -> bool, pq: T -> bool)
    requires forall x :: pq(x) == (p(x) && q(x))
    ensures Filter(Filter(xs, p), q) == Filter(xs, pq)
    decreases |xs|
  {
    if |xs| > 0 {
      FilterTwice(xs[1..], p, q, pq);
      var rest := Filter(xs[1..], p);
      if p(xs[0]) {
        assert Filter(xs, p) == [xs[0]] + rest;
        assert ([xs[0]] + rest)[1..] == rest;
      }
    }
  }

  /** Filtering with a condition every element meets changes nothing. */
  lemma {:induction false} FilterAll<T(!new)>(xs: seq<T>, p: T -> bool)
    requires forall i :: 0 <= i < |xs| ==> p(xs[i])
    ensures Filter(xs, p) == xs
    decreases |xs|
  {
    if |xs| > 0 {
      FilterAll(xs[1..], p);
      assert xs == [xs[0]] + xs[1..];
    }
  }

  /** Filtering with a condition no element meets leaves nothing. */
  lemma {:induction false} FilterNone<T(!new)>(xs: seq<T>, p: T -> bool)
    requires forall i :: 0 <= i < |xs| ==> !p(xs[i])
    ensures Filter(xs, p) == []
    decreases |xs|
  {
    if |xs| > 0 {
      FilterNone(xs[1..], p);
    }
  }

  /** Filtering a list with one more element at the end. */
  lemma {:induction false} FilterSnoc<T(!new)>(xs: seq<T>, x: T, p: T -> bool)
    ensures Filter(xs + [x], p) == Filter(xs, p) + (if p(x) then [x] else [])
    decreases |xs|
  {
    if |xs| == 0 {
      assert xs + [x] == [x];
      assert [x][1..] == [];
    } else {
      assert (xs + [x])[1..] == xs[1..] + [x];
      assert (xs + [x])[0] == xs[0];
      FilterSnoc(xs[1..], x, p);
    }
  }

  /** How many elements a condition keeps depends only on the multiset of the list. */
  lemma FilterLengthByMultiset<T(!new)>(xs: seq<T>, ys: seq<T>, p: T -> bool)
    requires multiset(xs) == multiset(ys)
    ensures |Filter(xs, p)| == |Filter(ys, p)|
  {
    var a, b := Filter(xs, p), Filter(ys, p);
    FilterMultiset(xs, p);
    FilterMultiset(ys, p);
    assert multiset(a) == multiset(b);
    assert |a| == |multiset(a)| && |b| == |multiset(b)|;
  }

  /** A weaker condition keeps at least as many elements, and more when it keeps an element of
      the list that the stronger one drops. */
  lemma {:induction false} FilterLengthMonotone<T(!new)>(xs: seq<T>, p: T -> bool, q: T -> bool, x: T)
    requires forall y :: p(y) ==> q(y)
    ensures |Filter(xs, p)| <= |Filter(xs, q)|
    ensures x in xs && q(x) && !p(x) ==> |Filter(xs, p)| < |Filter(xs, q)|
    decreases |xs|
  {
    if |xs| > 0 {
      FilterLengthMonotone(xs[1..], p, q, x);
      var a, b := Filter(xs[1..], p), Filter(xs[1..], q);
      assert |Filter(xs, p)| == |a| + (if p(xs[0]) then 1 else 0);
      assert |Filter(xs, q)| == |b| + (if q(xs[0]) then 1 else 0);
      if x in xs && x != xs[0] {
        assert x in xs[1..] by {
          var i :| 0 <= i < |xs| && xs[i] == x;
          assert xs[1..][i - 1] == x;
        }
      }
    }
  }

  /** Counting the elements kept by `p`, which keeps `x` and otherwise what `q` keeps, where `x`
      occurs once in the list: one more than `q` keeps. */
  lemma FilterLengthAddOne<T(!new)>(xs: seq<T>, p: T -> bool, q: T -> bool, x: T)
    requires multiset(xs)[x] == 1 && p(x) && !q(x)
    requires forall y :: y != x ==> p(y) == q(y)
    ensures |Filter(xs, p)| == |Filter(xs, q)| + 1
  {
    var a, b := Filter(xs, p), Filter(xs, q);
    FilterMultiset(xs, p);
    FilterMultiset(xs, q);
    assert multiset(a) == multiset(b) + multiset{x};
    assert |a| == |multiset(a)| && |b| == |multiset(b)|;
  }

  /** When the elements that meet `p` come before those that do not, filtering keeps a prefix. */
  lemma {:induction false} FilterPrefix<T(!new)>(xs: seq<T>, p: T -> bool)
    requires forall i, j :: 0 <= i < j < |xs| && p(xs[j]) ==> p(xs[i])
    ensures Filter(xs, p) == xs[..|Filter(xs, p)|]
    decreases |xs|
  {
    if |xs| > 0 {
      var rest := Filter(xs[1..], p);
      FilterPrefix(xs[1..], p);
      if p(xs[0]) {
        assert xs[..|rest| + 1] == [xs[0]] + xs[1..][..|rest|];
      } else {
        assert |rest| == 0;
      }
    }
  }

  /** ... and the elements after that prefix all fail `p`. */
  lemma FilterPrefixRest<T(!new)>(xs: seq<T>, p: T -> bool, j: nat)
    requires forall i, j :: 0 <= i < j < |xs| && p(xs[j]) ==> p(xs[i])
    requires |Filter(xs, p)| <= j < |xs|
    ensures !p(xs[j])
  {
    if p(xs[j]) {
      var prefix := xs[..j + 1];
      forall i | 0 <= i < |prefix| ensures p(prefix[i]) {
        assert prefix[i] == xs[i];
      }
      FilterAll(prefix, p);
      assert xs == xs[..j + 1] + xs[j + 1..];
      FilterAppendLength(xs[..j + 1], xs[j + 1..], p);
      assert false;
    }
  }

  lemma {:induction false} FilterAppendLength<T(!new)>(xs: seq<T>, ys: seq<T>, p: T -> bool)
    ensures |Filter(xs + ys, p)| == |Filter(xs, p)| + |Filter(ys, p)|
    decreases |xs|
  {
    if |xs| > 0 {
      FilterAppendLength(xs[1..], ys, p);
      assert (xs + ys)[1..] == xs[1..] + ys;
      assert (xs + ys)[0] == xs[0];
    } else {
      assert xs + ys == ys;
    }
  }

  /** Being a subsequence is transitive. */
  lemma {:induction false} IsSubsequenceTransitive<T>(a: seq<T>, b: seq<T>, c: seq<T>)
    requires IsSubsequence(a, b) && IsSubsequence(b, c)
    ensures IsSubsequence(a, c)
    decreases |c|
  {
    if |a| > 0 {
      if b[0] == c[0] && IsSubsequence(b[1..], c[1..]) {
        if a[0] == b[0] && IsSubsequence(a[1..], b[1..]) {
          IsSubsequenceTransitive(a[1..], b[1..], c[1..]);
        } else {
          IsSubsequenceTransitive(a, b[1..], c[1..]);
        }
      } else {
        IsSubsequenceTransitive(a, b, c[1..]);
      }
    }
  }

  /** `[f(x) for x in xs]` where computing `f(x)` may raise: the first element that raises
      aborts the whole list with its exception. */
  function MapResult<A, B>(xs: seq<A>, f: A -> Result<B>): (r: Result<seq<B>>)
    ensures r.Ok? <==> forall i :: 0 <= i < |xs| ==> f(xs[i]).Ok?
    ensures r.Ok? ==> |r.value| == |xs| && forall i :: 0 <= i < |xs| ==> r.value[i] == f(xs[i]).value
    ensures r.Err? ==> exists i :: 0 <= i < |xs| && f(xs[i]) == Err(r.error) && forall j :: 0 <= j < i ==> f(xs[j]).Ok?
    decreases |xs|
  {
    if |xs| == 0 then Ok([])
    else
      var first := f(xs[0]);
      if first.Err? then Err(first.error)
      else
        var rest := MapResult(xs[1..], f);
        if rest.Err? then
          assert exists i :: 0 <= i < |xs| - 1 && f(xs[1..][i]) == Err(rest.error)
                             && forall j :: 0 <= j < i ==> f(xs[1..][j]).Ok?;
          var i :| 0 <= i < |xs| - 1 && f(xs[1..][i]) == Err(rest.error) && forall j :: 0 <= j < i ==> f(xs[1..][j]).Ok?;
          assert forall j :: 0 <= j < i + 1 ==> f(xs[j]).Ok? by {
            forall j | 0 < j < i + 1 ensures f(xs[j]).Ok? {
              assert xs[j] == xs[1..][j - 1];
            }
          }
          Err(rest.error)
        else Ok([first.value] + rest.value)
  }

  /** A loop that appends `f(x)` for each `x` and stops at the first that raises: when
      every element before `i` succeeded and the one at `i` raises, so does `MapResult`. */
  lemma MapResultFirstFailure<A, B>(xs: seq<A>, f: A -> Result<B>, i: int)
    requires 0 <= i < |xs| && f(xs[i]).Err?
    requires forall j :: 0 <= j < i ==> f(xs[j]).Ok?
    ensures MapResult(xs, f) == Err(f(xs[i]).error)
  {
    var r := MapResult(xs, f);
    var k :| 0 <= k < |xs| && f(xs[k]) == Err(r.error) && forall j :: 0 <= j < k ==> f(xs[j]).Ok?;
    assert k == i;
  }

  /** ... and when every element succeeded, the values appended are those of `MapResult`. */
  lemma MapResultAllSucceed<A, B>(xs: seq<A>, f: A -> Result<B>, ys: seq<B>)
    requires |ys| == |xs| && forall j :: 0 <= j < |xs| ==> f(xs[j]) == Ok(ys[j])
    ensures MapResult(xs, f) == Ok(ys)
  {
    assert MapResult(xs, f).value == ys;
  }

  /** `[x for x in xs if p(x)]` where evaluating the condition may raise: the first element
      whose condition raises aborts the whole list with its exception. */
  function FilterResult<T(!new)>(xs: seq<T>, p: T -> Result<bool>): (r: Result<seq<T>>)
    ensures r.Ok? <==> forall i :: 0 <= i < |xs| ==> p(xs[i]).Ok?
    ensures r.Ok? ==> r.value == Filter(xs, x => p(x) == Ok(true))
    ensures r.Err? ==> exists i :: 0 <= i < |xs| && p(xs[i]) == Err(r.error)
    decreases |xs|
  {
    if |xs| == 0 then Ok([])
    else
      var keep := p(xs[0]);
      if keep.Err? then Err(keep.error)
      else
        var rest := FilterResult(xs[1..], p);
        if rest.Err? then
          assert exists i :: 0 <= i < |xs| - 1 && p(xs[1..][i]) == Err(rest.error);
          Err(rest.error)
        else if keep.value then Ok([xs[0]] + rest.value)
        else Ok(rest.value)
  }

  /** A condition that never raises filters like the plain comprehension. */
  lemma {:induction false} FilterResultAgrees<T(!new)>(xs: seq<T>, test: T -> Result<bool>, p: T -> bool)
    requires forall i :: 0 <= i < |xs| ==> test(xs[i]) == Ok(p(xs[i]))
    ensures FilterResult(xs, test) == Ok(Filter(xs, p))
    decreases |xs|
  {
    if |xs| > 0 {
      assert forall i :: 0 <= i < |xs| - 1 ==> xs[1..][i] == xs[i + 1];
      FilterResultAgrees(xs[1..], test, p);
    }
  }

  // ---------------------------------------------------------------------------------------
  // Dict comprehensions: `{key(d): value(d) for d in data}`, where a later duplicate key wins.

  /** The value the last pair with key `k` carries, if any pair has key `k`. */
  function LastValue<K(==), V>(pairs: seq<(K, V)>, k: K): Option<V>
    decreases |pairs|
  {
    if |pairs| == 0 then None
    else if pairs[|pairs| - 1].0 == k then Some(pairs[|pairs| - 1].1)
    else LastValue(pairs[..|pairs| - 1], k)
  }

  /** The keys of the pairs. */
  function KeysOf<K, V>(pairs: seq<(K, V)>): set<K> {
    set i | 0 <= i < |pairs| :: pairs[i].0
  }

  /** `dict(pairs)`: insertion in order, so every key is bound to the value of its last pair. */
  function MapFromPairs<K(!new), V>(pairs: seq<(K, V)>): (m: map<K, V>)
    ensures m.Keys == KeysOf(pairs)
    ensures forall k :: Get(m, k) == LastValue(pairs, k)
    decreases |pairs|
  {
    if |pairs| == 0 then map[]
    else
      var init := pairs[..|pairs| - 1];
      var last := pairs[|pairs| - 1];
      var m := MapFromPairs(init)[last.0 := last.1];
      assert KeysOf(pairs) == KeysOf(init) + {last.0} by {
        forall k | k in KeysOf(pairs) ensures k in KeysOf(init) + {last.0} {
          var i :| 0 <= i < |pairs| && pairs[i].0 == k;
          if i < |pairs| - 1 {
            assert init[i].0 == k;
          }
        }
        forall k | k in KeysOf(init) ensures k in KeysOf(pairs) {
          var i :| 0 <= i < |init| && init[i].0 == k;
          assert pairs[i].0 == k;
        }
      }
      m
  }

  /** What `LastValue` finds is a pair of the input, and no later pair has the same key. */
  lemma {:induction false} LastValueIsLast<K, V>(pairs: seq<(K, V)>, k: K)
    requires LastValue(pairs, k).Some?
    ensures exists i :: 0 <= i < |pairs| && pairs[i] == (k, LastValue(pairs, k).value)
                        && forall j :: i < j < |pairs| ==> pairs[j].0 != k
    decreases |pairs|
  {
    var n := |pairs| - 1;
    if pairs[n].0 == k {
      assert pairs[n] == (k, LastValue(pairs, k).value);
    } else {
      LastValueIsLast(pairs[..n], k);
      var i :| 0 <= i < n && pairs[..n][i] == (k, LastValue(pairs[..n], k).value)
               && forall j :: i < j < n ==> pairs[..n][j].0 != k;
      assert pairs[i] == (k, LastValue(pairs, k).value);
    }
  }

  /** With pairwise distinct keys every pair survives as it is. */
  lemma {:induction false} MapFromDistinctPairs<K(!new), V>(pairs: seq<(K, V)>, i: nat)
    requires i < |pairs|
    requires forall a, b :: 0 <= a < b < |pairs| ==> pairs[a].0 != pairs[b].0
    ensures pairs[i].0 in MapFromPairs(pairs) && MapFromPairs(pairs)[pairs[i].0] == pairs[i].1
    decreases |pairs|
  {
    var n := |pairs| - 1;
    if i < n {
      MapFromDistinctPairs(pairs[..n], i);
      assert Get(MapFromPairs(pairs[..n]), pairs[i].0) == LastValue(pairs[..n], pairs[i].0);
      assert LastValue(pairs, pairs[i].0) == LastValue(pairs[..n], pairs[i].0);
    }
    assert Get(MapFromPairs(pairs), pairs[i].0) == LastValue(pairs, pairs[i].0);
  }

  // ---------------------------------------------------------------------------------------
  // `sorted(xs, key=...)`: a stable sort. `le(a, b)` stands for "key(a) <= key(b)".

  /** `le` orders every pair of values and is transitive (it is allowed to have ties). */
  ghost predicate TotalPreorder<T(!new)>(le: (T, T) -> bool) {
    && (forall a, b :: le(a, b) || le(b, a))
    && (forall a, b, c :: le(a, b) && le(b, c) ==> le(a, c))
  }

  predicate SortedBy<T>(xs: seq<T>, le: (T, T) -> bool) {
    forall i, j :: 0 <= i < j < |xs| ==> le(xs[i], xs[j])
  }

  /** The elements of `xs` whose key equals the key of `x`, in their order in `xs`. */
  function SameKey<T>(xs: seq<T>, x: T, le: (T, T) -> bool): seq<T>
    decreases |xs|
  {
    if |xs| == 0 then []
    else (if le(x, xs[0]) && le(xs[0], x) then [xs[0]] else []) + SameKey(xs[1..], x, le)
  }

  /** Puts `x` in front of the first element whose key is not smaller than its own. */
  function Insert<T>(x: T, xs: seq<T>, le: (T, T) -> bool): (r: seq<T>)
    ensures multiset(r) == multiset(xs) + multiset{x}
    decreases |xs|
  {
    if |xs| == 0 then [x]
    else if le(x, xs[0]) then [x] + xs
    else
      assert xs == [xs[0]] + xs[1..];
      [xs[0]] + Insert(x, xs[1..], le)
  }

  /** Insertion sort, inserting each element in front of the ones after it that share its key. */
  function SortBy<T>(xs: seq<T>, le: (T, T) -> bool): (r: seq<T>)
    ensures multiset(r) == multiset(xs)
    ensures |r| == |xs|
    decreases |xs|
  {
    if |xs| == 0 then []
    else
      assert xs == [xs[0]] + xs[1..];
      var r := Insert(xs[0], SortBy(xs[1..], le), le);
      assert |r| == |multiset(r)|;
      r
  }

  lemma SortByMembers<T>(xs: seq<T>, le: (T, T) -> bool)
    ensures forall y :: y in SortBy(xs, le) <==> y in xs
  {
    forall y ensures y in SortBy(xs, le) <==> y in xs {
      assert y in SortBy(xs, le) <==> y in multiset(SortBy(xs, le));
      assert y in xs <==> y in multiset(xs);
    }
  }

  lemma {:induction false} InsertSorted<T(!new)>(x: T, xs: seq<T>, le: (T, T) -> bool)
    requires TotalPreorder(le)
    requires SortedBy(xs, le)
    ensures SortedBy(Insert(x, xs, le), le)
    decreases |xs|
  {
    if |xs| > 0 && !le(x, xs[0]) {
      var tail := Insert(x, xs[1..], le);
      InsertSorted(x, xs[1..], le);
      forall y | y in tail ensures le(xs[0], y) {
        assert y in multiset(tail);
        if y != x {
          assert y in multiset(xs[1..]);
          var j :| 0 <= j < |xs[1..]| && xs[1..][j] == y;
          assert xs[j + 1] == y;
        }
      }
      var r := [xs[0]] + tail;
      forall i, j | 0 <= i < j < |r| ensures le(r[i], r[j]) {
        if i == 0 {
          assert r[j] == tail[j - 1] && r[j] in tail;
        } else {
          assert r[i] == tail[i - 1] && r[j] == tail[j - 1];
        }
      }
    }
  }

  /** The sort puts the elements in ascending order of their keys. */
  lemma {:induction false} SortBySorted<T(!new)>(xs: seq<T>, le: (T, T) -> bool)
    requires TotalPreorder(le)
    ensures SortedBy(SortBy(xs, le), le)
    decreases |xs|
  {
    if |xs| > 0 {
      SortBySorted(xs[1..], le);
      InsertSorted(xs[0], SortBy(xs[1..], le), le);
    }
  }

  lemma Transitive<T(!new)>(le: (T, T) -> bool, a: T, b: T, c: T)
    requires TotalPreorder(le)
    ensures le(a, b) && le(b, c) ==> le(a, c)
  {
  }

  lemma {:induction false} InsertSameKey<T(!new)>(y: T, xs: seq<T>, x: T, le: (T, T) -> bool)
    requires TotalPreorder(le)
    ensures SameKey(Insert(y, xs, le), x, le)
         == (if le(x, y) && le(y, x) then [y] else []) + SameKey(xs, x, le)
    decreases |xs|
  {
    if |xs| == 0 {
    } else if le(y, xs[0]) {
      assert Insert(y, xs, le) == [y] + xs;
      assert ([y] + xs)[1..] == xs;
    } else {
      var t := Insert(y, xs[1..], le);
      assert Insert(y, xs, le) == [xs[0]] + t;
      InsertSameKey(y, xs[1..], x, le);
      if le(x, y) && le(y, x) {
        Transitive(le, y, x, xs[0]);
      }
      SameKeyCons(xs[0], t, x, le);
      SameKeyCons(xs[0], xs[1..], x, le);
      assert xs == [xs[0]] + xs[1..];
    }
  }

  lemma SameKeyCons<T>(z: T, t: seq<T>, x: T, le: (T, T) -> bool)
    ensures SameKey([z] + t, x, le) == (if le(x, z) && le(z, x) then [z] else []) + SameKey(t, x, le)
  {
    assert ([z] + t)[1..] == t;
  }

  /** Stability: the elements sharing a key leave the sort in the order they entered it. */
  lemma {:induction false} SortByStable<T(!new)>(xs: seq<T>, x: T, le: (T, T) -> bool)
    requires TotalPreorder(le)
    ensures SameKey(SortBy(xs, le), x, le) == SameKey(xs, x, le)
    decreases |xs|
  {
    if |xs| > 0 {
      SortByStable(xs[1..], x, le);
      InsertSameKey(xs[0], SortBy(xs[1..], le), x, le);
    }
  }

  /** An already sorted list comes out of the sort unchanged, hence sorting is idempotent. */
  lemma {:induction false} SortBySortedIsIdentity<T>(xs: seq<T>, le: (T, T) -> bool)
    requires SortedBy(xs, le)
    ensures SortBy(xs, le) == xs
    decreases |xs|
  {
    if |xs| > 0 {
      SortBySortedIsIdentity(xs[1..], le);
      assert xs == [xs[0]] + xs[1..];
    }
  }

  lemma SortByIdempotent<T(!new)>(xs: seq<T>, le: (T, T) -> bool)
    requires TotalPreorder(le)
    ensures SortBy(SortBy(xs, le), le) == SortBy(xs, le)
  {
    SortBySorted(xs, le);
    SortBySortedIsIdentity(SortBy(xs, le), le);
  }

  lemma {:induction false} SameKeyMember<T>(xs: seq<T>, x: T, y: T, le: (T, T) -> bool)
    ensures y in SameKey(xs, x, le) <==> y in xs && le(x, y) && le(y, x)
    decreases |xs|
  {
    if |xs| > 0 {
      SameKeyMember(xs[1..], x, y, le);
      assert xs == [xs[0]] + xs[1..];
    }
  }

  /** Two sorted lists that hold, key by key, the same elements in the same order are equal:
      so a sort that is sorted and stable has exactly one possible result, which is `SortBy`. */
  lemma {:induction false} StableSortIsUnique<T(!new)>(r: seq<T>, s: seq<T>, le: (T, T) -> bool)
    requires TotalPreorder(le)
    requires SortedBy(r, le) && SortedBy(s, le)
    requires forall x :: SameKey(r, x, le) == SameKey(s, x, le)
    ensures r == s
    decreases |r| + |s|
  {
    if |r| == 0 || |s| == 0 {
      if |r| > 0 {
        NothingOfTheKey(r, s, le);
      } else if |s| > 0 {
        NothingOfTheKey(s, r, le);
      }
    } else {
      SortedHeadsAgree(r, s, le);
      TailsSameKeys(r, s, le);
      StableSortIsUnique(r[1..], s[1..], le);
      assert r == [r[0]] + r[1..] && s == [s[0]] + s[1..];
    }
  }

  /** A non-empty list shares the key of its first element with some element of any list
      that has, key by key, the same elements. */
  lemma NothingOfTheKey<T(!new)>(r: seq<T>, s: seq<T>, le: (T, T) -> bool)
    requires TotalPreorder(le) && |r| > 0
    requires SameKey(r, r[0], le) == SameKey(s, r[0], le)
    ensures |s| > 0
  {
    SameKeyMember(r, r[0], r[0], le);
    SameKeyMember(s, r[0], r[0], le);
  }

  /** Two sorted lists with, key by key, the same elements start with the same element. */
  lemma SortedHeadsAgree<T(!new)>(r: seq<T>, s: seq<T>, le: (T, T) -> bool)
    requires TotalPreorder(le) && |r| > 0 && |s| > 0
    requires SortedBy(r, le) && SortedBy(s, le)
    requires SameKey(r, r[0], le) == SameKey(s, r[0], le)
    requires SameKey(r, s[0], le) == SameKey(s, s[0], le)
    ensures r[0] == s[0]
  {
    SameKeyMember(s, s[0], s[0], le);
    SameKeyMember(r, s[0], s[0], le);
    SameKeyMember(r, r[0], r[0], le);
    SameKeyMember(s, r[0], r[0], le);
    var i :| 0 <= i < |r| && r[i] == s[0];
    var j :| 0 <= j < |s| && s[j] == r[0];
    assert le(r[0], s[0]) by { if i > 0 { assert le(r[0], r[i]); } }
    assert le(s[0], r[0]) by { if j > 0 { assert le(s[0], s[j]); } }
    assert SameKey(r, r[0], le)[0] == r[0];
    assert SameKey(s, r[0], le)[0] == s[0];
  }

  /** Removing a common first element keeps, key by key, the same elements. */
  lemma TailsSameKeys<T>(r: seq<T>, s: seq<T>, le: (T, T) -> bool)
    requires |r| > 0 && |s| > 0 && r[0] == s[0]
    requires forall x :: SameKey(r, x, le) == SameKey(s, x, le)
    ensures forall x :: SameKey(r[1..], x, le) == SameKey(s[1..], x, le)
  {
    assert r == [r[0]] + r[1..] && s == [s[0]] + s[1..];
    forall x ensures SameKey(r[1..], x, le) == SameKey(s[1..], x, le) {
      var e := le(x, r[0]) && le(r[0], x);
      var head: seq<T> := if e then [r[0]] else [];
      SameKeyCons(r[0], r[1..], x, le);
      SameKeyCons(s[0], s[1..], x, le);
      assert head + SameKey(r[1..], x, le) == head + SameKey(s[1..], x, le);
      assert SameKey(r[1..], x, le) == (head + SameKey(r[1..], x, le))[|head|..];
      assert SameKey(s[1..], x, le) == (head + SameKey(s[1..], x, le))[|head|..];
    }
  }
}
