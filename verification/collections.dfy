/**
  The two collection idioms the page scripts repeat: `Array.prototype.filter`
  and a `new Map()` filled by a loop whose later `set` of a key replaces an
  earlier one.
 */
module Collections {
  import opened Values

  /** The positions of `s` whose element passes `p`, in ascending order. */
  function Passing<T>(s: seq<T>, p: T -> bool): (r: seq<int>)
    ensures forall k :: 0 <= k < |r| ==> 0 <= r[k] < |s| && p(s[r[k]])
    ensures forall k, l :: 0 <= k < l < |r| ==> r[k] < r[l]
    ensures forall i {:trigger i in r} :: 0 <= i < |s| && p(s[i]) ==> i in r
  {
    if |s| == 0 then []
    else
      var n := |s| - 1;
      assert forall i :: 0 <= i < n ==> s[..n][i] == s[i];
      Passing(s[..n], p) + (if p(s[n]) then [n] else [])
  }

  /**
    `r` is what `s.filter(p)` returns: one element per passing position, the
    k-th being the element at the k-th passing position, so order and
    repetitions follow `s`.
   */
  ghost predicate KeepsInOrder<T>(r: seq<T>, s: seq<T>, p: T -> bool) {
    var pos := Passing(s, p);
    |r| == |pos| && forall k :: 0 <= k < |r| ==> r[k] == s[pos[k]]
  }

  /** `s.filter(p)`: the elements satisfying `p`, in their original order. */
  function Filter<T>(s: seq<T>, p: T -> bool): (r: seq<T>)
    ensures |r| <= |s|
    ensures forall i :: 0 <= i < |r| ==> r[i] in s && p(r[i])
    ensures forall i :: 0 <= i < |s| && p(s[i]) ==> s[i] in r
  {
    if |s| == 0 then []
    else Filter(s[..|s| - 1], p) + (if p(s[|s| - 1]) then [s[|s| - 1]] else [])
  }

  /** `Filter` keeps one element per passing position, in the order of `s`. */
  lemma {:induction false} FilterKeepsInOrder<T>(s: seq<T>, p: T -> bool)
    ensures KeepsInOrder(Filter(s, p), s, p)
  {
    if |s| > 0 {
      FilterKeepsInOrder(s[..|s| - 1], p);
      KeepsInOrderStep(Filter(s[..|s| - 1], p), s, p);
    }
  }

  /** Keeping the passing elements of a prefix in order extends to one more element. */
  lemma KeepsInOrderStep<T>(r: seq<T>, s: seq<T>, p: T -> bool)
    requires |s| > 0 && KeepsInOrder(r, s[..|s| - 1], p)
    ensures KeepsInOrder(r + (if p(s[|s| - 1]) then [s[|s| - 1]] else []), s, p)
  {
    var n := |s| - 1;
    var pos := Passing(s[..n], p);
    assert Passing(s, p) == pos + (if p(s[n]) then [n] else []);
    assert forall k :: 0 <= k < |pos| ==> r[k] == s[..n][pos[k]] == s[pos[k]];
  }

  /** Two results that both keep the passing elements of `s` in order are the same list. */
  lemma KeepsInOrderUnique<T>(r1: seq<T>, r2: seq<T>, s: seq<T>, p: T -> bool)
    requires KeepsInOrder(r1, s, p) && KeepsInOrder(r2, s, p)
    ensures r1 == r2
  {
  }

  lemma {:induction false} FilterAppend<T>(a: seq<T>, b: seq<T>, p: T -> bool)
    ensures Filter(a + b, p) == Filter(a, p) + Filter(b, p)
    decreases |b|
  {
    if |b| > 0 {
      assert (a + b)[..|a + b| - 1] == a + b[..|b| - 1];
      FilterAppend(a, b[..|b| - 1], p);
    } else {
      assert a + b == a;
    }
  }

  /** Filtering with a predicate that holds of no element keeps nothing. */
  lemma {:induction false} FilterNone<T>(s: seq<T>, p: T -> bool)
    requires forall i :: 0 <= i < |s| ==> !p(s[i])
    ensures Filter(s, p) == []
  {
    if |s| > 0 {
      FilterNone(s[..|s| - 1], p);
    }
  }

  /** Filtering with a predicate that holds of every element keeps everything. */
  lemma {:induction false} FilterAll<T>(s: seq<T>, p: T -> bool)
    requires forall i :: 0 <= i < |s| ==> p(s[i])
    ensures Filter(s, p) == s
  {
    PassingAll(s, p);
    FilterKeepsInOrder(s, p);
    KeepsInOrderUnique(Filter(s, p), s, s, p);
  }

  /** When every element passes, the passing positions are all positions. */
  lemma {:induction false} PassingAll<T>(s: seq<T>, p: T -> bool)
    requires forall i :: 0 <= i < |s| ==> p(s[i])
    ensures |Passing(s, p)| == |s|
    ensures forall k :: 0 <= k < |s| ==> Passing(s, p)[k] == k
  {
    if |s| > 0 {
      var n := |s| - 1;
      assert forall i :: 0 <= i < n ==> s[..n][i] == s[i];
      PassingAll(s[..n], p);
    }
  }

  /** No element occurs twice. */
  predicate Distinct<T(==)>(s: seq<T>) {
    forall i, j :: 0 <= i < j < |s| ==> s[i] != s[j]
  }

  /** `set.add(x)` on a set kept in insertion order as a sequence. */
  function AppendNew<T(==,!new)>(s: seq<T>, x: T): (r: seq<T>)
    requires Distinct(s)
    ensures Distinct(r)
    ensures forall y :: y in r <==> y in s || y == x
    ensures |s| <= |r| && r[..|s|] == s
  {
    if x in s then s else s + [x]
  }

  /** Two arrangements of the same elements have the same members and length. */
  lemma SameElements<T>(a: seq<T>, b: seq<T>)
    requires multiset(a) == multiset(b)
    ensures forall i :: 0 <= i < |a| ==> a[i] in b
    ensures forall i :: 0 <= i < |b| ==> b[i] in a
    ensures |a| == |b|
  {
    assert |multiset(a)| == |multiset(b)|;
    forall i | 0 <= i < |a|
      ensures a[i] in b
    {
      assert a[i] in multiset(b);
    }
    forall i | 0 <= i < |b|
      ensures b[i] in a
    {
      assert b[i] in multiset(a);
    }
  }

  /** The key an index entry is filed under, when it has one. */
  predicate HasKey<V>(e: Option<(string, V)>, k: string) {
    e.Some? && e.value.0 == k
  }

  /** Position `i` holds the last element of `s` filed under key `k`. */
  predicate LastWithKey<T, V>(s: seq<T>, entry: T -> Option<(string, V)>, k: string, i: int) {
    && 0 <= i < |s|
    && HasKey(entry(s[i]), k)
    && forall j :: i < j < |s| ==> !HasKey(entry(s[j]), k)
  }

  /**
    A map filled by `for (x of s) if (entry(x)) m.set(key, value)`: its keys
    are the keys of the elements that have one, and each key holds the value
    of the last element filed under it.
   */
  function IndexBy<T, V>(s: seq<T>, entry: T -> Option<(string, V)>): (m: map<string, V>)
    ensures forall k :: k in m <==> exists i :: 0 <= i < |s| && HasKey(entry(s[i]), k)
    ensures forall k, i :: LastWithKey(s, entry, k, i) ==> k in m && m[k] == entry(s[i]).value.1
  {
    if |s| == 0 then map[]
    else
      var p := s[..|s| - 1];
      var m := IndexBy(p, entry);
      var e := entry(s[|s| - 1]);
      forall k, i | LastWithKey(s, entry, k, i) && i < |p|
        ensures LastWithKey(p, entry, k, i) && !HasKey(e, k)
      {
        LastInPrefix(s, entry, k, i);
      }
      assert forall i :: 0 <= i < |p| ==> p[i] == s[i];
      if e.Some? then m[e.value.0 := e.value.1] else m
  }

  /** The last element under a key, if it is not the final one, is also the last under it in the prefix. */
  lemma LastInPrefix<T, V>(s: seq<T>, entry: T -> Option<(string, V)>, k: string, i: int)
    requires LastWithKey(s, entry, k, i) && i < |s| - 1
    ensures LastWithKey(s[..|s| - 1], entry, k, i) && !HasKey(entry(s[|s| - 1]), k)
  {
    var p := s[..|s| - 1];
    assert forall j :: 0 <= j < |p| ==> p[j] == s[j];
  }

  /** Every key of an index has a last element filed under it. */
  lemma {:induction false} IndexedKeyHasLast<T, V>(s: seq<T>, entry: T -> Option<(string, V)>, k: string)
    requires k in IndexBy(s, entry)
    ensures exists i :: LastWithKey(s, entry, k, i)
  {
    var e := entry(s[|s| - 1]);
    if HasKey(e, k) {
      assert LastWithKey(s, entry, k, |s| - 1);
    } else {
      var p := s[..|s| - 1];
      assert forall i :: 0 <= i < |p| ==> p[i] == s[i];
      assert k in IndexBy(p, entry);
      IndexedKeyHasLast(p, entry, k);
      var i :| LastWithKey(p, entry, k, i);
      assert LastWithKey(s, entry, k, i);
    }
  }

  /** `s.filter(Boolean)` on string fields: the truthy values, in order. */
  function TruthyValues(s: seq<Option<string>>): (r: seq<string>)
    ensures |r| <= |s|
    ensures forall i :: 0 <= i < |r| ==> r[i] != "" && Some(r[i]) in s
    ensures forall i :: 0 <= i < |s| && Truthy(s[i]) ==> s[i].value in r
  {
    if |s| == 0 then []
    else
      var last := s[|s| - 1];
      assert forall i :: 0 <= i < |s| - 1 ==> s[..|s| - 1][i] == s[i];
      TruthyValues(s[..|s| - 1]) + (if Truthy(last) then [last.value] else [])
  }

  /**
    `filter(Boolean)` keeps one value per truthy field, the k-th being the
    value of the k-th truthy field, so order and repetitions follow `s`.
   */
  lemma {:induction false} TruthyValuesInOrder(s: seq<Option<string>>)
    ensures |TruthyValues(s)| == |Passing(s, Truthy)|
    ensures forall k :: 0 <= k < |TruthyValues(s)| ==> Some(TruthyValues(s)[k]) == s[Passing(s, Truthy)[k]]
  {
    if |s| > 0 {
      TruthyValuesInOrder(s[..|s| - 1]);
      TruthyStep(TruthyValues(s[..|s| - 1]), s);
    }
  }

  /** Keeping a prefix's truthy values in order extends to one more field. */
  lemma TruthyStep(r: seq<string>, s: seq<Option<string>>)
    requires |s| > 0 && |r| == |Passing(s[..|s| - 1], Truthy)|
    requires forall k :: 0 <= k < |r| ==> Some(r[k]) == s[..|s| - 1][Passing(s[..|s| - 1], Truthy)[k]]
    ensures var r' := r + (if Truthy(s[|s| - 1]) then [s[|s| - 1].value] else []);
            |r'| == |Passing(s, Truthy)| && forall k :: 0 <= k < |r'| ==> Some(r'[k]) == s[Passing(s, Truthy)[k]]
  {
    var n := |s| - 1;
    var pos := Passing(s[..n], Truthy);
    assert Passing(s, Truthy) == pos + (if Truthy(s[n]) then [n] else []);
    assert forall k :: 0 <= k < |pos| ==> s[..n][pos[k]] == s[pos[k]];
  }

  /** `filter(Boolean)` of a concatenation is the concatenation of the parts' results. */
  lemma {:induction false} TruthyValuesAppend(a: seq<Option<string>>, b: seq<Option<string>>)
    ensures TruthyValues(a + b) == TruthyValues(a) + TruthyValues(b)
    decreases |b|
  {
    if |b| > 0 {
      assert (a + b)[..|a + b| - 1] == a + b[..|b| - 1];
      TruthyValuesAppend(a, b[..|b| - 1]);
    } else {
      assert a + b == a;
    }
  }

  /** `[a, b, c].filter(Boolean)` is the truthy ones of `a`, `b` and `c`, in that order. */
  lemma TruthyValuesOfThree(a: Option<string>, b: Option<string>, c: Option<string>)
    ensures TruthyValues([a, b, c]) ==
              (if Truthy(a) then [a.value] else []) + (if Truthy(b) then [b.value] else []) + (if Truthy(c) then [c.value] else [])
  {
    assert [a, b, c] == [a, b] + [c];
    assert [a, b] == [a] + [b];
    TruthyValuesAppend([a, b], [c]);
    TruthyValuesAppend([a], [b]);
    TruthyValuesOfOne(a);
    TruthyValuesOfOne(b);
    TruthyValuesOfOne(c);
  }

  lemma TruthyValuesOfOne(a: Option<string>)
    ensures TruthyValues([a]) == if Truthy(a) then [a.value] else []
  {
    assert [a][..0] == [];
  }

  /** `s.indexOf(x)`: the first position holding `x`, or -1. */
  function IndexOf<T(==)>(s: seq<T>, x: T): (r: int)
    ensures -1 <= r < |s|
    ensures r == -1 <==> x !in s
    ensures r >= 0 ==> s[r] == x && forall j :: 0 <= j < r ==> s[j] != x
  {
    if |s| == 0 then -1
    else if s[0] == x then 0
    else
      var r := IndexOf(s[1..], x);
      if r == -1 then -1 else r + 1
  }
}
