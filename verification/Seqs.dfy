/** Facts about finite sequences that every other module needs: filtering (Python's list
    comprehensions), keys kept in insertion order (Python's dicts), and pairwise order. */
module Seqs {

  ghost predicate Distinct<T>(s: seq<T>) {
    forall i, j :: 0 <= i < j < |s| ==> s[i] != s[j]
  }

  /** `ids` lists the keys of `m`, each once: a dict together with its insertion order. */
  ghost predicate KeysInOrder<K(!new), V>(ids: seq<K>, m: map<K, V>) {
    Distinct(ids) && forall k :: k in m <==> k in ids
  }

  function Filter<T(!new)>(p: T -> bool, s: seq<T>): (r: seq<T>)
    ensures |r| <= |s|
    ensures forall x :: x in r <==> x in s && p(x)
  {
    if s == [] then []
    else
      var init := Filter(p, s[..|s| - 1]);
      if p(s[|s| - 1]) then init + [s[|s| - 1]] else init
  }

  lemma FilterStep<T(!new)>(p: T -> bool, s: seq<T>, i: nat)
    requires i < |s|
    ensures Filter(p, s[..i + 1]) == if p(s[i]) then Filter(p, s[..i]) + [s[i]] else Filter(p, s[..i])
  {
    assert s[..i + 1][..i] == s[..i];
  }

  lemma {:induction false} FilterDistinct<T(!new)>(p: T -> bool, s: seq<T>)
    requires Distinct(s)
    ensures Distinct(Filter(p, s))
  {
    if s != [] {
      FilterDistinct(p, s[..|s| - 1]);
    }
  }

  lemma {:induction false} FilterMultiset<T(!new)>(p: T -> bool, s: seq<T>, x: T)
    ensures multiset(Filter(p, s))[x] == if p(x) then multiset(s)[x] else 0
  {
    if s != [] {
      FilterMultiset(p, s[..|s| - 1], x);
      assert s == s[..|s| - 1] + [s[|s| - 1]];
    }
  }

  /** Reordering a sequence does not change how many of its elements pass a test. */
  lemma FilterPermutation<T(!new)>(p: T -> bool, a: seq<T>, b: seq<T>)
    requires multiset(a) == multiset(b)
    ensures multiset(Filter(p, a)) == multiset(Filter(p, b))
    ensures |Filter(p, a)| == |Filter(p, b)|
  {
    forall x: T | x in multiset(Filter(p, a)) || x in multiset(Filter(p, b))
      ensures multiset(Filter(p, a))[x] == multiset(Filter(p, b))[x]
    {
      FilterMultiset(p, a, x);
      FilterMultiset(p, b, x);
    }
    assert multiset(Filter(p, a)) == multiset(Filter(p, b));
    assert |multiset(Filter(p, a))| == |Filter(p, a)|;
    assert |multiset(Filter(p, b))| == |Filter(p, b)|;
  }

  /** Filtering twice is filtering once by the conjunction. */
  lemma {:induction false} FilterFilter<T(!new)>(p: T -> bool, q: T -> bool, both: T -> bool, s: seq<T>)
    requires forall x :: x in s ==> (both(x) <==> p(x) && q(x))
    ensures Filter(q, Filter(p, s)) == Filter(both, s)
  {
    if s != [] {
      var front, last := s[..|s| - 1], s[|s| - 1];
      FilterFilter(p, q, both, front);
      if p(last) {
        FilterStep(q, Filter(p, front) + [last], |Filter(p, front)|);
        assert (Filter(p, front) + [last])[..|Filter(p, front)|] == Filter(p, front);
        assert (Filter(p, front) + [last])[..|Filter(p, front)| + 1] == Filter(p, front) + [last];
      }
    }
  }

  /** The first element that passes is the head of the filtered sequence. */
  lemma {:induction false} FilterHead<T(!new)>(p: T -> bool, s: seq<T>, j: nat)
    requires j < |s| && p(s[j])
    requires forall k :: 0 <= k < j ==> !p(s[k])
    ensures |Filter(p, s)| > 0 && Filter(p, s)[0] == s[j]
  {
    var front := s[..|s| - 1];
    if j < |front| {
      FilterHead(p, front, j);
    } else {
      assert forall x :: x in front ==> !p(x);
      assert forall i :: 0 <= i < |Filter(p, front)| ==> Filter(p, front)[i] in front;
    }
  }

  lemma {:induction false} FilterHeadWhere<T(!new)>(p: T -> bool, s: seq<T>) returns (j: nat)
    requires Filter(p, s) != []
    ensures j < |s| && p(s[j]) && Filter(p, s)[0] == s[j]
    ensures forall k :: 0 <= k < j ==> !p(s[k])
  {
    var front := s[..|s| - 1];
    if Filter(p, front) != [] {
      j := FilterHeadWhere(p, front);
    } else {
      j := |s| - 1;
      assert forall k :: 0 <= k < j ==> s[k] in front && s[k] !in Filter(p, front);
    }
  }

  lemma FilterNone<T(!new)>(p: T -> bool, s: seq<T>)
    requires forall x :: x in s ==> !p(x)
    ensures Filter(p, s) == []
  {
    if Filter(p, s) != [] {
      assert Filter(p, s)[0] in Filter(p, s);
    }
  }

  ghost predicate Pairwise<T(!new)>(rel: (T, T) -> bool, s: seq<T>) {
    forall i, j :: 0 <= i < j < |s| ==> rel(s[i], s[j])
  }

  lemma {:induction false} FilterPairwise<T(!new)>(p: T -> bool, rel: (T, T) -> bool, s: seq<T>)
    requires Pairwise(rel, s)
    ensures Pairwise(rel, Filter(p, s))
  {
    if s != [] {
      var front, last := s[..|s| - 1], s[|s| - 1];
      FilterPairwise(p, rel, front);
      forall x | x in front ensures rel(x, last) {
        var i :| 0 <= i < |front| && front[i] == x;
        assert rel(s[i], s[|s| - 1]);
      }
    }
  }

  lemma {:induction false} FilterSame<T(!new)>(p: T -> bool, q: T -> bool, s: seq<T>)
    requires forall x :: x in s ==> (p(x) <==> q(x))
    ensures Filter(p, s) == Filter(q, s)
  {
    if s != [] {
      FilterSame(p, q, s[..|s| - 1]);
    }
  }

  lemma FilterKeepsPlaces<T(!new)>(p: T -> bool, s: seq<T>, a: T, b: T)
    requires exists i, j :: 0 <= i < j < |Filter(p, s)| && Filter(p, s)[i] == a && Filter(p, s)[j] == b
    ensures exists i, j :: 0 <= i < j < |s| && s[i] == a && s[j] == b
  {
    var front, last := s[..|s| - 1], s[|s| - 1];
    var i, j :| 0 <= i < j < |Filter(p, s)| && Filter(p, s)[i] == a && Filter(p, s)[j] == b;
    if j < |Filter(p, front)| {
      FilterKeepsPlaces(p, front, a, b);
      var i', j' :| 0 <= i' < j' < |front| && front[i'] == a && front[j'] == b;
      assert s[i'] == a && s[j'] == b;
    } else {
      assert a in front;
      var i' :| 0 <= i' < |front| && front[i'] == a;
      assert s[i'] == a && s[|s| - 1] == b;
    }
  }

  lemma DistinctByMultiset<T>(a: seq<T>, b: seq<T>)
    requires Distinct(b) && multiset(a) == multiset(b)
    ensures Distinct(a)
  {
    forall i, j | 0 <= i < j < |a| ensures a[i] != a[j] {
      if a[i] == a[j] {
        assert a == a[..i] + [a[i]] + a[i + 1..j] + [a[j]] + a[j + 1..];
        assert multiset(b)[a[i]] >= 2;
        DistinctMultiplicity(b, a[i]);
      }
    }
  }

  lemma {:induction false} DistinctMultiplicity<T>(s: seq<T>, x: T)
    requires Distinct(s)
    ensures multiset(s)[x] <= 1
  {
    if s != [] {
      DistinctMultiplicity(s[..|s| - 1], x);
      assert s == s[..|s| - 1] + [s[|s| - 1]];
      if s[|s| - 1] == x { assert x !in s[..|s| - 1]; }
    }
  }

  /** A filter of distinct ids has as many members as the set it lists. */
  lemma {:induction false} DistinctCard<T(!new)>(s: seq<T>, members: set<T>)
    requires Distinct(s)
    requires forall x :: x in members <==> x in s
    ensures |members| == |s|
  {
    if s != [] {
      var last := s[|s| - 1];
      DistinctCard(s[..|s| - 1], members - {last});
      assert members == (members - {last}) + {last};
    } else {
      assert members == {};
    }
  }

  /** The last `n` elements, as Python's `s[-n:]` gives them once the list is longer than `n`. */
  function LastN<T>(s: seq<T>, n: nat): seq<T> {
    if |s| <= n then s else s[|s| - n..]
  }

  /** The longest end of `s` that has at most `n` elements. */
  lemma LastNIs<T>(s: seq<T>, n: nat)
    ensures |LastN(s, n)| == if |s| < n then |s| else n
    ensures forall k :: 0 <= k < |LastN(s, n)| ==> LastN(s, n)[k] == s[|s| - |LastN(s, n)| + k]
  {
  }

  lemma LastNAppend<T>(s: seq<T>, x: T, n: nat)
    ensures LastN(LastN(s, n) + [x], n) == LastN(s + [x], n)
  {
    if |s| > n {
      if n == 0 {
        assert LastN(LastN(s, n) + [x], n) == [];
      } else {
        assert LastN(s, n) + [x] == (s + [x])[|s| - n..];
      }
    }
  }
}
