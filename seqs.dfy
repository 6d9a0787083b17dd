/**
 * Sequence helpers shared by the pipeline, chiefly the stable sort the
 * source gets from `Array.prototype.sort` with a numeric comparator
 * `(a, b) => key(a) - key(b)`.
 */
module Seqs {

  predicate SortedBy<T>(s: seq<T>, key: T -> int) {
    forall i, j :: 0 <= i < j < |s| ==> key(s[i]) <= key(s[j])
  }

  /** The elements of `s` whose key is `k`, in their order in `s`. */
  function WithKey<T>(s: seq<T>, key: T -> int, k: int): seq<T>
  {
    if s == [] then []
    else WithKey(s[..|s| - 1], key, k) + (if key(s[|s| - 1]) == k then [s[|s| - 1]] else [])
  }

  /** The positions of the elements of `s` that satisfy `p`, ascending. */
  function IndicesWhere<T>(s: seq<T>, p: T -> bool): (ks: seq<nat>)
    ensures forall i :: 0 <= i < |ks| ==> ks[i] < |s| && p(s[ks[i]])
    ensures forall i, j :: 0 <= i < j < |ks| ==> ks[i] < ks[j]
    ensures forall k :: 0 <= k < |s| && p(s[k]) ==> k in ks
  {
    if s == [] then []
    else
      var n := |s| - 1;
      var init := IndicesWhere(s[..n], p);
      assert forall k :: 0 <= k < n ==> s[..n][k] == s[k];
      if p(s[n]) then init + [n] else init
  }

  /**
   * `out` is what a filtering loop over `s` produces: one element per element
   * of `s` that passes `keep`, in order, each related to its source by `rel`.
   */
  predicate Corresponds<A, B>(out: seq<B>, s: seq<A>, keep: A -> bool, rel: (B, A) -> bool) {
    var ks := IndicesWhere(s, keep);
    |out| == |ks| && forall i :: 0 <= i < |out| ==> rel(out[i], s[ks[i]])
  }

  lemma IndicesWhereStep<T>(s: seq<T>, n: nat, p: T -> bool)
    requires n < |s|
    ensures IndicesWhere(s[..n + 1], p) == IndicesWhere(s[..n], p) + (if p(s[n]) then [n] else [])
  {
    assert s[..n + 1][..n] == s[..n];
  }

  /** A filtering loop step that drops `s[n]`. */
  lemma CorrespondsSkip<A, B>(out: seq<B>, s: seq<A>, n: nat, keep: A -> bool, rel: (B, A) -> bool)
    requires n < |s| && Corresponds(out, s[..n], keep, rel) && !keep(s[n])
    ensures Corresponds(out, s[..n + 1], keep, rel)
  {
    IndicesWhereStep(s, n, keep);
    var ks := IndicesWhere(s[..n], keep);
    forall i | 0 <= i < |ks| ensures s[..n + 1][ks[i]] == s[..n][ks[i]] { }
  }

  /** A filtering loop step that emits `b` for `s[n]`. */
  lemma CorrespondsPush<A, B>(out: seq<B>, b: B, s: seq<A>, n: nat, keep: A -> bool, rel: (B, A) -> bool)
    requires n < |s| && Corresponds(out, s[..n], keep, rel) && keep(s[n]) && rel(b, s[n])
    ensures Corresponds(out + [b], s[..n + 1], keep, rel)
  {
    IndicesWhereStep(s, n, keep);
    var ks := IndicesWhere(s[..n], keep);
    forall i | 0 <= i < |ks| ensures s[..n + 1][ks[i]] == s[..n][ks[i]] { }
  }

  /** `s.flatMap(f)`: the pieces `f` makes of each element, concatenated in order. */
  function FlatMap<A, B>(s: seq<A>, f: A -> seq<B>): seq<B>
  {
    if s == [] then [] else FlatMap(s[..|s| - 1], f) + f(s[|s| - 1])
  }

  lemma {:induction false} FlatMapAppend<A, B>(s: seq<A>, t: seq<A>, f: A -> seq<B>)
    ensures FlatMap(s + t, f) == FlatMap(s, f) + FlatMap(t, f)
    decreases |t|
  {
    if t == [] {
      assert s + t == s;
    } else {
      var n := |t| - 1;
      assert (s + t)[..|s + t| - 1] == s + t[..n];
      FlatMapAppend(s, t[..n], f);
    }
  }

  /** Every element of a flat map comes from the piece of some element of the input. */
  lemma {:induction false} FlatMapMember<A, B>(s: seq<A>, f: A -> seq<B>, y: B)
    requires y in FlatMap(s, f)
    ensures exists i :: 0 <= i < |s| && y in f(s[i])
  {
    var n := |s| - 1;
    if y in f(s[n]) {
    } else {
      FlatMapMember(s[..n], f, y);
      var i :| 0 <= i < n && y in f(s[..n][i]);
      assert s[..n][i] == s[i];
    }
  }

  /** Whatever a piece holds is in the flat map. */
  lemma FlatMapIncludes<A, B>(s: seq<A>, f: A -> seq<B>, i: nat, y: B)
    requires i < |s| && y in f(s[i])
    ensures y in FlatMap(s, f)
  {
    FlatMapSplit(s, i, f);
  }

  /** A flat map is empty exactly when every piece is. */
  lemma {:induction false} FlatMapEmpty<A, B>(s: seq<A>, f: A -> seq<B>)
    ensures FlatMap(s, f) == [] <==> forall i :: 0 <= i < |s| ==> f(s[i]) == []
  {
    if s != [] {
      var n := |s| - 1;
      FlatMapEmpty(s[..n], f);
      assert forall i :: 0 <= i < n ==> s[..n][i] == s[i];
    }
  }

  /**
   * A filtering loop over input sorted by `keyA` produces output sorted by
   * `keyB`, when each output element has its source's key.
   */
  lemma CorrespondsOrdered<A, B>(out: seq<B>, s: seq<A>, keep: A -> bool, rel: (B, A) -> bool, keyA: A -> int, keyB: B -> int)
    requires Corresponds(out, s, keep, rel) && SortedBy(s, keyA)
    requires forall i :: 0 <= i < |out| ==> keyB(out[i]) == keyA(s[IndicesWhere(s, keep)[i]])
    ensures SortedBy(out, keyB)
  {
  }

  /** A prefix one longer is the prefix and the next element. */
  lemma TakeSnoc<T>(s: seq<T>, n: nat)
    requires n < |s|
    ensures s[..n + 1] == s[..n] + [s[n]]
  {
  }

  lemma MultisetSnoc<T>(s: seq<T>)
    requires s != []
    ensures multiset(s) == multiset(s[..|s| - 1]) + multiset{s[|s| - 1]}
  {
    assert s == s[..|s| - 1] + [s[|s| - 1]];
  }

  lemma MultisetRemove<T>(t: seq<T>, i: nat)
    requires i < |t|
    ensures multiset(t[..i] + t[i + 1..]) == multiset(t) - multiset{t[i]}
  {
    assert t == t[..i] + [t[i]] + t[i + 1..];
    assert multiset(t) == multiset(t[..i]) + multiset{t[i]} + multiset(t[i + 1..]);
  }

  /** The flat map around one element: what comes before it, its piece, what comes after. */
  lemma {:induction false} FlatMapSplit<A, B>(t: seq<A>, i: nat, f: A -> seq<B>)
    requires i < |t|
    ensures FlatMap(t, f) == FlatMap(t[..i], f) + f(t[i]) + FlatMap(t[i + 1..], f)
    decreases |t|
  {
    var n := |t| - 1;
    if i == n {
      assert t[i + 1..] == [];
    } else {
      var init := t[..n];
      FlatMapSplit(init, i, f);
      assert init[..i] == t[..i];
      assert init[i + 1..] == t[i + 1..][..|t[i + 1..]| - 1];
    }
  }

  /** Taking one element out of `t` takes its piece out of the flat map. */
  lemma FlatMapRemove<A, B>(t: seq<A>, i: nat, f: A -> seq<B>)
    requires i < |t|
    ensures multiset(FlatMap(t, f)) == multiset(FlatMap(t[..i] + t[i + 1..], f)) + multiset(f(t[i]))
  {
    FlatMapSplit(t, i, f);
    FlatMapAppend(t[..i], t[i + 1..], f);
    var pre, mid, post := FlatMap(t[..i], f), f(t[i]), FlatMap(t[i + 1..], f);
    assert multiset(pre + mid + post) == multiset(pre) + multiset(mid) + multiset(post);
    assert multiset(pre + post) == multiset(pre) + multiset(post);
  }

  /** Reordering the elements reorders the flat map's contents but keeps them. */
  lemma {:induction false} FlatMapPermutation<A, B>(s: seq<A>, t: seq<A>, f: A -> seq<B>)
    requires multiset(s) == multiset(t)
    ensures multiset(FlatMap(s, f)) == multiset(FlatMap(t, f))
    decreases |s|
  {
    if s == [] {
      assert |t| == |multiset(t)| == 0;
    } else {
      var n := |s| - 1;
      var x := s[n];
      MultisetSnoc(s);
      assert x in multiset(t);
      var i :| 0 <= i < |t| && t[i] == x;
      var rest := t[..i] + t[i + 1..];
      MultisetRemove(t, i);
      FlatMapPermutation(s[..n], rest, f);
      FlatMapRemove(t, i, f);
      assert FlatMap(s, f) == FlatMap(s[..n], f) + f(x);
    }
  }

  /** How many elements of `s` satisfy `p`. */
  function CountWhere<T>(s: seq<T>, p: T -> bool): nat
  {
    if s == [] then 0 else CountWhere(s[..|s| - 1], p) + (if p(s[|s| - 1]) then 1 else 0)
  }

  lemma {:induction false} CountAppend<T>(s: seq<T>, t: seq<T>, p: T -> bool)
    ensures CountWhere(s + t, p) == CountWhere(s, p) + CountWhere(t, p)
    decreases |t|
  {
    if t == [] {
      assert s + t == s;
    } else {
      var n := |t| - 1;
      assert (s + t)[..|s + t| - 1] == s + t[..n];
      CountAppend(s, t[..n], p);
    }
  }

  /** The count is zero exactly when no element satisfies `p`. */
  lemma {:induction false} CountZero<T>(s: seq<T>, p: T -> bool)
    ensures CountWhere(s, p) == 0 <==> forall i :: 0 <= i < |s| ==> !p(s[i])
  {
    if s != [] {
      var n := |s| - 1;
      CountZero(s[..n], p);
      assert forall i :: 0 <= i < n ==> s[..n][i] == s[i];
    }
  }

  /** Counting does not depend on the order of the elements. */
  lemma {:induction false} CountPermutation<T>(s: seq<T>, t: seq<T>, p: T -> bool)
    requires multiset(s) == multiset(t)
    ensures CountWhere(s, p) == CountWhere(t, p)
    decreases |s|
  {
    if s == [] {
      assert |t| == |multiset(t)| == 0;
    } else {
      var n := |s| - 1;
      var x := s[n];
      assert s == s[..n] + [x];
      assert x in multiset(t);
      var i :| 0 <= i < |t| && t[i] == x;
      var rest := t[..i] + t[i + 1..];
      assert t == t[..i] + [x] + t[i + 1..];
      calc {
        multiset(t);
        multiset(t[..i]) + multiset{x} + multiset(t[i + 1..]);
        multiset(rest) + multiset{x};
      }
      assert multiset(s) == multiset(s[..n]) + multiset{x};
      assert multiset(rest) == multiset(t) - multiset{x};
      assert multiset(s[..n]) == multiset(s) - multiset{x};
      CountPermutation(s[..n], rest, p);
      CountAppend(t[..i] + [x], t[i + 1..], p);
      CountAppend(t[..i], [x], p);
      CountAppend(t[..i], t[i + 1..], p);
      CountAppend(s[..n], [x], p);
      assert [x][..0] == [];
    }
  }

  /** Inserts `x` into `s` just after the last element whose key is at most `key(x)`. */
  function InsertBy<T>(s: seq<T>, x: T, key: T -> int): seq<T>
  {
    if s == [] then [x]
    else if key(x) < key(s[|s| - 1]) then InsertBy(s[..|s| - 1], x, key) + [s[|s| - 1]]
    else s + [x]
  }

  /** The stable sort by an integer key: insertion sort, taking the input left to right. */
  function SortBy<T>(s: seq<T>, key: T -> int): seq<T>
  {
    if s == [] then [] else InsertBy(SortBy(s[..|s| - 1], key), s[|s| - 1], key)
  }

  lemma WithKeyAppend<T>(s: seq<T>, x: T, key: T -> int, k: int)
    ensures WithKey(s + [x], key, k) == WithKey(s, key, k) + (if key(x) == k then [x] else [])
  {
    assert (s + [x])[..|s + [x]| - 1] == s;
  }

  lemma {:induction false} InsertByMembers<T>(s: seq<T>, x: T, key: T -> int)
    ensures multiset(InsertBy(s, x, key)) == multiset(s) + multiset{x}
    ensures |InsertBy(s, x, key)| == |s| + 1
  {
    if s != [] && key(x) < key(s[|s| - 1]) {
      var init, last := s[..|s| - 1], s[|s| - 1];
      assert s == init + [last];
      InsertByMembers(init, x, key);
    }
  }

  lemma {:induction false} InsertBySorted<T>(s: seq<T>, x: T, key: T -> int)
    requires SortedBy(s, key)
    ensures SortedBy(InsertBy(s, x, key), key)
  {
    if s != [] && key(x) < key(s[|s| - 1]) {
      var init, last := s[..|s| - 1], s[|s| - 1];
      assert s == init + [last];
      InsertBySorted(init, x, key);
      InsertByMembers(init, x, key);
      var t := InsertBy(init, x, key);
      forall i, j | 0 <= i < j < |t + [last]| ensures key((t + [last])[i]) <= key((t + [last])[j]) {
        if j == |t| {
          var y := t[i];
          assert y in multiset(t);
          if y != x { assert y in init; }
        }
      }
    }
  }

  lemma {:induction false} InsertByWithKey<T>(s: seq<T>, x: T, key: T -> int, k: int)
    requires SortedBy(s, key)
    ensures WithKey(InsertBy(s, x, key), key, k) == WithKey(s, key, k) + (if key(x) == k then [x] else [])
  {
    if s == [] {
      WithKeyAppend([], x, key, k);
      assert [] + [x] == [x];
    } else if key(x) < key(s[|s| - 1]) {
      var init, last := s[..|s| - 1], s[|s| - 1];
      assert s == init + [last];
      InsertByWithKey(init, x, key, k);
      var t := InsertBy(init, x, key);
      WithKeyAppend(t, last, key, k);
      WithKeyAppend(init, last, key, k);
    } else {
      WithKeyAppend(s, x, key, k);
    }
  }

  /**
   * `SortBy` is a stable sort: its result is ordered by key, is a
   * permutation of the input, and keeps the input order among elements with
   * equal keys.
   */
  lemma {:induction false} SortByFacts<T>(s: seq<T>, key: T -> int)
    ensures SortedBy(SortBy(s, key), key)
    ensures multiset(SortBy(s, key)) == multiset(s)
    ensures |SortBy(s, key)| == |s|
    ensures forall k :: WithKey(SortBy(s, key), key, k) == WithKey(s, key, k)
  {
    if s != [] {
      var init, last := s[..|s| - 1], s[|s| - 1];
      assert s == init + [last];
      SortByFacts(init, key);
      InsertBySorted(SortBy(init, key), last, key);
      InsertByMembers(SortBy(init, key), last, key);
      forall k ensures WithKey(SortBy(s, key), key, k) == WithKey(s, key, k) {
        InsertByWithKey(SortBy(init, key), last, key, k);
        WithKeyAppend(init, last, key, k);
      }
    }
  }

  /** Sorting an already ordered sequence leaves it as it is. */
  lemma {:induction false} SortBySorted<T>(s: seq<T>, key: T -> int)
    requires SortedBy(s, key)
    ensures SortBy(s, key) == s
  {
    if s != [] {
      var init := s[..|s| - 1];
      assert SortedBy(init, key);
      SortBySorted(init, key);
      assert s == init + [s[|s| - 1]];
    }
  }

  /** Two ordered sequences that agree on every key class are equal. */
  lemma {:induction false} SortedUnique<T>(t: seq<T>, u: seq<T>, key: T -> int)
    requires SortedBy(t, key) && SortedBy(u, key)
    requires forall k :: WithKey(t, key, k) == WithKey(u, key, k)
    ensures t == u
    decreases |t| + |u|
  {
    if t == [] || u == [] {
      if t != [] { EmptyWithKey(u, key, key(t[|t| - 1])); LastWithKey(t, key); }
      if u != [] { EmptyWithKey(t, key, key(u[|u| - 1])); LastWithKey(u, key); }
    } else {
      var ti, ui := t[..|t| - 1], u[..|u| - 1];
      var a, b := t[|t| - 1], u[|u| - 1];
      assert t == ti + [a] && u == ui + [b];
      SameLast(ti, a, ui, b, key);
      SamePrefixClasses(ti, ui, a, key);
      SortedUnique(ti, ui, key);
    }
  }

  lemma SameLast<T>(ti: seq<T>, a: T, ui: seq<T>, b: T, key: T -> int)
    requires SortedBy(ti + [a], key) && SortedBy(ui + [b], key)
    requires forall k :: WithKey(ti + [a], key, k) == WithKey(ui + [b], key, k)
    ensures a == b
  {
    var t, u := ti + [a], ui + [b];
    LastWithKey(t, key);
    LastWithKey(u, key);
    MaxKeyClass(t, key, key(b));
    MaxKeyClass(u, key, key(a));
    assert key(a) == key(b);
    WithKeyAppend(ti, a, key, key(a));
    WithKeyAppend(ui, b, key, key(a));
    var w := WithKey(t, key, key(a));
    assert w == WithKey(ti, key, key(a)) + [a];
    assert w == WithKey(ui, key, key(a)) + [b];
    assert w[|w| - 1] == a;
  }

  lemma SamePrefixClasses<T>(ti: seq<T>, ui: seq<T>, a: T, key: T -> int)
    requires forall k :: WithKey(ti + [a], key, k) == WithKey(ui + [a], key, k)
    ensures forall k :: WithKey(ti, key, k) == WithKey(ui, key, k)
  {
    forall k ensures WithKey(ti, key, k) == WithKey(ui, key, k) {
      WithKeyAppend(ti, a, key, k);
      WithKeyAppend(ui, a, key, k);
      assert WithKey(ti + [a], key, k) == WithKey(ui + [a], key, k);
      var x, y := WithKey(ti, key, k), WithKey(ui, key, k);
      if key(a) == k {
        assert x + [a] == y + [a];
        assert |x| == |y|;
        assert (x + [a])[..|x|] == x && (y + [a])[..|y|] == y;
        assert x == y;
      } else {
        assert x + [] == y + [];
        assert x + [] == x && y + [] == y;
      }
    }
  }

  lemma EmptyWithKey<T>(s: seq<T>, key: T -> int, k: int)
    requires WithKey(s, key, k) == []
    ensures forall i :: 0 <= i < |s| ==> key(s[i]) != k
  {
    forall i | 0 <= i < |s| ensures key(s[i]) != k {
      if key(s[i]) == k { WithKeyMember(s, key, k, i); }
    }
  }

  lemma {:induction false} WithKeyMember<T>(s: seq<T>, key: T -> int, k: int, i: int)
    requires 0 <= i < |s| && key(s[i]) == k
    ensures s[i] in WithKey(s, key, k)
  {
    if i < |s| - 1 {
      WithKeyMember(s[..|s| - 1], key, k, i);
    }
  }

  lemma {:induction false} WithKeyKeys<T>(s: seq<T>, key: T -> int, k: int)
    ensures forall y :: y in WithKey(s, key, k) ==> key(y) == k && y in s
  {
    if s != [] {
      WithKeyKeys(s[..|s| - 1], key, k);
      assert forall y :: y in s[..|s| - 1] ==> y in s;
    }
  }

  lemma LastWithKey<T>(s: seq<T>, key: T -> int)
    requires s != []
    ensures WithKey(s, key, key(s[|s| - 1])) != []
  {
  }

  /** In an ordered sequence no element has a key above the last element's. */
  lemma MaxKeyClass<T>(s: seq<T>, key: T -> int, k: int)
    requires SortedBy(s, key) && s != []
    requires WithKey(s, key, k) != []
    ensures k <= key(s[|s| - 1])
  {
    var w := WithKey(s, key, k);
    WithKeyKeys(s, key, k);
    assert w[0] in w;
  }

  /** The stable sort is the only ordered sequence with the input's key classes. */
  lemma SortByCharacterization<T>(s: seq<T>, t: seq<T>, key: T -> int)
    requires SortedBy(t, key)
    requires forall k :: WithKey(t, key, k) == WithKey(s, key, k)
    ensures t == SortBy(s, key)
  {
    SortByFacts(s, key);
    SortedUnique(t, SortBy(s, key), key);
  }
}
