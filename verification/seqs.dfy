/**
 * Generic sequence operations behind the dataframe idioms of the dashboard:
 * boolean-mask selection (`df[mask]`), element-wise mapping, and
 * first-occurrence deduplication (`drop_duplicates(keep='first')`).
 */
module Seqs {

  /** `xs` is obtained from `ys` by deleting elements, keeping the order of the rest. */
  predicate IsSubsequence<T(==)>(xs: seq<T>, ys: seq<T>)
    decreases |ys|
  {
    if |xs| == 0 then true
    else if |ys| == 0 then false
    else if xs[|xs| - 1] == ys[|ys| - 1] && IsSubsequence(xs[..|xs| - 1], ys[..|ys| - 1]) then true
    else IsSubsequence(xs, ys[..|ys| - 1])
  }

  /** Every element of a subsequence is an element of the sequence it came from. */
  lemma {:induction false} SubsequenceMembers<T>(xs: seq<T>, ys: seq<T>)
    requires IsSubsequence(xs, ys)
    ensures forall x :: x in xs ==> x in ys
    decreases |ys|
  {
    if |xs| == 0 {
    } else if xs[|xs| - 1] == ys[|ys| - 1] && IsSubsequence(xs[..|xs| - 1], ys[..|ys| - 1]) {
      SubsequenceMembers(xs[..|xs| - 1], ys[..|ys| - 1]);
      forall x | x in xs ensures x in ys {
        if x != xs[|xs| - 1] {
          assert x in xs[..|xs| - 1];
        }
      }
    } else {
      SubsequenceMembers(xs, ys[..|ys| - 1]);
    }
  }

  /** A property of every element of a sequence holds of every element of its subsequences. */
  lemma SubsequenceAll<T>(p: T -> bool, xs: seq<T>, ys: seq<T>)
    requires IsSubsequence(xs, ys)
    requires forall i :: 0 <= i < |ys| ==> p(ys[i])
    ensures forall i :: 0 <= i < |xs| ==> p(xs[i])
  {
    SubsequenceMembers(xs, ys);
    assert forall i :: 0 <= i < |xs| ==> xs[i] in ys;
  }

  /** `r` holds every copy of each element of `s` that satisfies `p`, and nothing else. */
  ghost predicate KeepsCopies<T(!new)>(p: T -> bool, s: seq<T>, r: seq<T>)
  {
    forall x {:trigger multiset(r)[x]} :: multiset(r)[x] == if p(x) then multiset(s)[x] else 0
  }

  /**
   * The elements of `s` that satisfy `p`, in their original order: every
   * occurrence of a selected element is kept, so repeated elements keep
   * their multiplicity.
   */
  function Filter<T(!new)>(p: T -> bool, s: seq<T>): (r: seq<T>)
    ensures |r| <= |s|
    ensures forall i :: 0 <= i < |r| ==> p(r[i])
    ensures forall x :: x in r <==> x in s && p(x)
    ensures KeepsCopies(p, s, r)
    ensures IsSubsequence(r, s)
    decreases |s|
  {
    if |s| == 0 then []
    else
      var init := Filter(p, s[..|s| - 1]);
      var last := s[|s| - 1];
      assert s[..|s| - 1] + [last] == s;
      assert multiset(s) == multiset(s[..|s| - 1]) + multiset{last};
      assert forall x :: x in s <==> x in s[..|s| - 1] || x == last;
      if p(last) then init + [last] else init
  }

  /** When every element satisfies `p`, selection keeps the whole sequence. */
  lemma {:induction false} FilterAll<T(!new)>(p: T -> bool, s: seq<T>)
    requires forall i :: 0 <= i < |s| ==> p(s[i])
    ensures Filter(p, s) == s
    decreases |s|
  {
    if |s| > 0 {
      FilterAll(p, s[..|s| - 1]);
      assert s[..|s| - 1] + [s[|s| - 1]] == s;
    }
  }

  /** Selection distributes over appending one element. */
  lemma FilterSnoc<T(!new)>(p: T -> bool, s: seq<T>, x: T)
    ensures Filter(p, s + [x]) == if p(x) then Filter(p, s) + [x] else Filter(p, s)
  {
    assert (s + [x])[..|s|] == s;
  }

  /** Appending one element grows the selection by one exactly when it is selected. */
  lemma FilterSizeSnoc<T(!new)>(p: T -> bool, s: seq<T>, x: T)
    ensures |Filter(p, s + [x])| == |Filter(p, s)| + (if p(x) then 1 else 0)
  {
    FilterSnoc(p, s, x);
  }

  /** Selections by two predicates that no element satisfies together fit in the sequence side by side. */
  lemma {:induction false} FilterDisjoint<T(!new)>(p: T -> bool, q: T -> bool, s: seq<T>)
    requires forall i :: 0 <= i < |s| ==> !(p(s[i]) && q(s[i]))
    ensures |Filter(p, s)| + |Filter(q, s)| <= |s|
    decreases |s|
  {
    if |s| > 0 {
      var init := s[..|s| - 1];
      var x := s[|s| - 1];
      FilterDisjoint(p, q, init);
      assert init + [x] == s;
      FilterSizeSnoc(p, init, x);
      FilterSizeSnoc(q, init, x);
    }
  }

  /**
   * Selections by three predicates that split every element into exactly one
   * class have sizes adding up to the whole sequence.
   */
  lemma {:induction false} FilterPartition<T(!new)>(p: T -> bool, q: T -> bool, o: T -> bool, s: seq<T>)
    requires forall i :: 0 <= i < |s| ==> (p(s[i]) || q(s[i]) || o(s[i]))
    requires forall i :: 0 <= i < |s| ==> !(p(s[i]) && q(s[i])) && !(p(s[i]) && o(s[i])) && !(q(s[i]) && o(s[i]))
    ensures |Filter(p, s)| + |Filter(q, s)| + |Filter(o, s)| == |s|
    decreases |s|
  {
    if |s| > 0 {
      FilterPartition(p, q, o, s[..|s| - 1]);
    }
  }

  /** Applies `f` to every element, keeping positions. */
  function Map<T, U>(f: T -> U, s: seq<T>): (r: seq<U>)
    ensures |r| == |s|
    ensures forall i :: 0 <= i < |s| ==> r[i] == f(s[i])
  {
    seq(|s|, i requires 0 <= i < |s| => f(s[i]))
  }

  /** The set of keys carried by the elements of `s`. */
  function KeysOf<T, K>(key: T -> K, s: seq<T>): set<K>
  {
    set i | 0 <= i < |s| :: key(s[i])
  }

  /** Appending one element adds exactly its key. */
  lemma KeysOfSnoc<T, K>(key: T -> K, s: seq<T>, x: T)
    ensures KeysOf(key, s + [x]) == KeysOf(key, s) + {key(x)}
  {
    var t := s + [x];
    assert forall i :: 0 <= i < |s| ==> t[i] == s[i];
    assert t[|s|] == x;
  }

  /** No two elements of `s` share a key. */
  predicate DistinctKeys<T, K(==)>(key: T -> K, s: seq<T>)
  {
    forall i, j :: 0 <= i < j < |s| ==> key(s[i]) != key(s[j])
  }

  /** Two sequences whose elements carry the same keys, position by position, have the same key set and are distinct together. */
  lemma KeysAgree<A, B, K>(ka: A -> K, a: seq<A>, kb: B -> K, b: seq<B>)
    requires |a| == |b|
    requires forall i :: 0 <= i < |a| ==> ka(a[i]) == kb(b[i])
    ensures KeysOf(ka, a) == KeysOf(kb, b)
    ensures DistinctKeys(ka, a) <==> DistinctKeys(kb, b)
  {
  }

  /** In a sequence with distinct keys, the last key is new and the prefix keeps its keys distinct. */
  lemma DistinctLast<T, K>(key: T -> K, s: seq<T>)
    requires |s| > 0 && DistinctKeys(key, s)
    ensures key(s[|s| - 1]) !in KeysOf(key, s[..|s| - 1])
    ensures DistinctKeys(key, s[..|s| - 1])
  {
  }

  /** Position `i` holds the first element of `s` with its key. */
  predicate IsFirst<T, K(==)>(key: T -> K, s: seq<T>, i: int)
    requires 0 <= i < |s|
  {
    forall j :: 0 <= j < i ==> key(s[j]) != key(s[i])
  }

  /**
   * First-occurrence deduplication: scanning `s` in order, an element is kept
   * unless an earlier element with the same key was already kept.
   */
  function Dedup<T, K(==)>(key: T -> K, s: seq<T>): (r: seq<T>)
    ensures |r| <= |s|
    ensures DistinctKeys(key, r)
    ensures IsSubsequence(r, s)
    ensures KeysOf(key, r) == KeysOf(key, s)
    decreases |s|
  {
    if |s| == 0 then []
    else
      var d := Dedup(key, s[..|s| - 1]);
      var last := s[|s| - 1];
      KeysOfSnoc(key, s[..|s| - 1], last);
      assert s[..|s| - 1] + [last] == s;
      if key(last) in KeysOf(key, d) then d
      else
        KeysOfSnoc(key, d, last);
        d + [last]
  }

  /** Appending one element extends the deduplicated sequence exactly when its key is new. */
  lemma DedupSnoc<T, K>(key: T -> K, s: seq<T>, x: T)
    ensures Dedup(key, s + [x]) == if key(x) in KeysOf(key, Dedup(key, s)) then Dedup(key, s) else Dedup(key, s) + [x]
  {
    assert (s + [x])[..|s|] == s;
  }

  /** The prefix of `s` agrees with `s` on which positions are first occurrences. */
  lemma IsFirstPrefix<T, K>(key: T -> K, s: seq<T>, i: int)
    requires 0 <= i < |s| - 1
    ensures IsFirst(key, s, i) <==> IsFirst(key, s[..|s| - 1], i)
  {
    assert forall j :: 0 <= j <= i ==> s[..|s| - 1][j] == s[j];
  }

  /** The last element of `s` is a first occurrence exactly when its key is new. */
  lemma IsFirstLast<T, K>(key: T -> K, s: seq<T>)
    requires |s| > 0
    ensures IsFirst(key, s, |s| - 1) <==> key(s[|s| - 1]) !in KeysOf(key, s[..|s| - 1])
  {
    var init := s[..|s| - 1];
    if !IsFirst(key, s, |s| - 1) {
      var j :| 0 <= j < |s| - 1 && key(s[j]) == key(s[|s| - 1]);
      assert key(init[j]) in KeysOf(key, init);
    }
  }

  /** Position by position: the elements of `s` that are the first with their key, in order. */
  function FirstOccurrences<T, K(==)>(key: T -> K, s: seq<T>): seq<T>
    decreases |s|
  {
    if |s| == 0 then []
    else FirstOccurrences(key, s[..|s| - 1]) + (if IsFirst(key, s, |s| - 1) then [s[|s| - 1]] else [])
  }

  /** Deduplication keeps exactly the first occurrences, in their positions' order. */
  lemma {:induction false} DedupIsFirstOccurrences<T, K>(key: T -> K, s: seq<T>)
    ensures Dedup(key, s) == FirstOccurrences(key, s)
    decreases |s|
  {
    if |s| > 0 {
      var init := s[..|s| - 1];
      DedupIsFirstOccurrences(key, init);
      assert init + [s[|s| - 1]] == s;
      DedupSnoc(key, init, s[|s| - 1]);
      IsFirstLast(key, s);
    }
  }

  /** Deduplication keeps every first occurrence. */
  lemma {:induction false} DedupKeepsFirst<T, K>(key: T -> K, s: seq<T>, i: int)
    requires 0 <= i < |s| && IsFirst(key, s, i)
    ensures s[i] in Dedup(key, s)
    decreases |s|
  {
    var n := |s| - 1;
    var init := s[..n];
    IsFirstLast(key, s);
    assert init + [s[n]] == s;
    DedupSnoc(key, init, s[n]);
    if i < n {
      IsFirstPrefix(key, s, i);
      DedupKeepsFirst(key, init, i);
      assert init[i] == s[i];
    }
  }

  /** A kept element is the first element of `s` with its key. */
  lemma {:induction false} DedupOnlyFirst<T, K>(key: T -> K, s: seq<T>, x: T, i: int)
    requires x in Dedup(key, s)
    requires 0 <= i < |s| && IsFirst(key, s, i) && key(s[i]) == key(x)
    ensures x == s[i]
    decreases |s|
  {
    var n := |s| - 1;
    var init := s[..n];
    var d := Dedup(key, init);
    IsFirstLast(key, s);
    assert init + [s[n]] == s;
    DedupSnoc(key, init, s[n]);
    if x in d {
      assert key(x) in KeysOf(key, init) by {
        var k :| 0 <= k < |d| && d[k] == x;
        assert key(d[k]) in KeysOf(key, d);
      }
      if i < n {
        IsFirstPrefix(key, s, i);
        DedupOnlyFirst(key, init, x, i);
      }
    }
  }

  /** A sequence whose keys are already distinct is left unchanged by deduplication. */
  lemma {:induction false} DedupDistinct<T, K>(key: T -> K, s: seq<T>)
    requires DistinctKeys(key, s)
    ensures Dedup(key, s) == s
    decreases |s|
  {
    if |s| > 0 {
      var init := s[..|s| - 1];
      DedupDistinct(key, init);
      assert key(s[|s| - 1]) !in KeysOf(key, init);
      assert init + [s[|s| - 1]] == s;
    }
  }
}
