/**
  The orderings the page scripts sort by. `localeCompare` is modelled as plain
  lexicographic order on code points, and every comparator used by the
  scripts is expressed as a sort key: an integer rank compared first, then a
  text compared lexicographically. `Array.prototype.sort` is modelled as a
  stable insertion sort on that key.
 */
module Ordering {

  /** Lexicographic order on code points. */
  predicate StrLe(a: string, b: string)
    decreases |a|
  {
    |a| == 0 || (|b| > 0 && (a[0] < b[0] || (a[0] == b[0] && StrLe(a[1..], b[1..]))))
  }

  lemma {:induction false} StrLeTotal(a: string, b: string)
    ensures StrLe(a, b) || StrLe(b, a)
    decreases |a|
  {
    if |a| > 0 && |b| > 0 && a[0] == b[0] {
      StrLeTotal(a[1..], b[1..]);
    }
  }

  lemma {:induction false} StrLeTransitive(a: string, b: string, c: string)
    requires StrLe(a, b) && StrLe(b, c)
    ensures StrLe(a, c)
    decreases |a|
  {
    if |a| > 0 && a[0] == b[0] && b[0] == c[0] {
      StrLeTransitive(a[1..], b[1..], c[1..]);
    }
  }

  lemma {:induction false} StrLeAntisymmetric(a: string, b: string)
    requires StrLe(a, b) && StrLe(b, a)
    ensures a == b
    decreases |a|
  {
    if |a| > 0 {
      StrLeAntisymmetric(a[1..], b[1..]);
      assert a == [a[0]] + a[1..];
      assert b == [b[0]] + b[1..];
    }
  }

  /** `a.localeCompare(b)` under code-point order: negative, zero or positive. */
  function LocaleCompare(a: string, b: string): int {
    if a == b then 0 else if StrLe(a, b) then -1 else 1
  }

  lemma LocaleCompareIsStrLe(a: string, b: string)
    ensures LocaleCompare(a, b) <= 0 <==> StrLe(a, b)
    ensures LocaleCompare(a, b) == 0 <==> a == b
  {
    StrLeTotal(a, a);
  }

  /** What the scripts sort by: a rank compared first, then a text. */
  datatype SortKey = SortKey(rank: int, text: string)

  predicate KeyLe(x: SortKey, y: SortKey) {
    x.rank < y.rank || (x.rank == y.rank && StrLe(x.text, y.text))
  }

  lemma KeyLeTotal(x: SortKey, y: SortKey)
    ensures KeyLe(x, y) || KeyLe(y, x)
  {
    StrLeTotal(x.text, y.text);
  }

  lemma KeyLeTransitive(x: SortKey, y: SortKey, z: SortKey)
    requires KeyLe(x, y) && KeyLe(y, z)
    ensures KeyLe(x, z)
  {
    if x.rank == y.rank == z.rank {
      StrLeTransitive(x.text, y.text, z.text);
    }
  }

  lemma KeyLeAntisymmetric(x: SortKey, y: SortKey)
    requires KeyLe(x, y) && KeyLe(y, x)
    ensures x == y
  {
    StrLeAntisymmetric(x.text, y.text);
  }

  /** Every element's key is at most every later element's key. */
  predicate SortedBy<T>(s: seq<T>, key: T -> SortKey) {
    forall i, j :: 0 <= i < j < |s| ==> KeyLe(key(s[i]), key(s[j]))
  }

  /** The head of a sorted list has the least key. */
  lemma HeadIsLeast<T>(s: seq<T>, key: T -> SortKey)
    requires |s| > 0 && SortedBy(s, key)
    ensures forall y :: y in s ==> KeyLe(key(s[0]), key(y))
  {
    forall y | y in s
      ensures KeyLe(key(s[0]), key(y))
    {
      var k :| 0 <= k < |s| && s[k] == y;
      if k == 0 {
        KeyLeTotal(key(y), key(y));
      }
    }
  }

  /** An element whose key is at most every key of a sorted list may go in front of it. */
  lemma PrependSorted<T>(x: T, s: seq<T>, key: T -> SortKey)
    requires SortedBy(s, key)
    requires forall y :: y in s ==> KeyLe(key(x), key(y))
    ensures SortedBy([x] + s, key)
  {
    var r := [x] + s;
    forall i, j | 0 <= i < j < |r|
      ensures KeyLe(key(r[i]), key(r[j]))
    {
      assert r[j] == s[j - 1];
      if i > 0 {
        assert r[i] == s[i - 1];
      }
    }
  }

  /** Inserts `x` before the first element whose key is not below its own. */
  function Insert<T>(x: T, s: seq<T>, key: T -> SortKey): (r: seq<T>)
    requires SortedBy(s, key)
    ensures SortedBy(r, key)
    ensures multiset(r) == multiset(s) + multiset{x}
  {
    if |s| == 0 then [x]
    else if KeyLe(key(x), key(s[0])) then
      HeadIsLeast(s, key);
      forall y | y in s
        ensures KeyLe(key(x), key(y))
      {
        KeyLeTransitive(key(x), key(s[0]), key(y));
      }
      PrependSorted(x, s, key);
      [x] + s
    else
      assert s == [s[0]] + s[1..];
      var rest := Insert(x, s[1..], key);
      HeadIsLeast(s, key);
      KeyLeTotal(key(x), key(s[0]));
      forall y | y in rest
        ensures KeyLe(key(s[0]), key(y))
      {
        assert y in multiset(rest);
      }
      PrependSorted(s[0], rest, key);
      [s[0]] + rest
  }

  /**
    `s.slice().sort(cmp)` where `cmp` orders by `key`: the result is a
    permutation of `s` sorted by `key`.
   */
  function SortBy<T>(s: seq<T>, key: T -> SortKey): (r: seq<T>)
    ensures SortedBy(r, key)
    ensures multiset(r) == multiset(s)
  {
    if |s| == 0 then []
    else
      assert s == [s[0]] + s[1..];
      Insert(s[0], SortBy(s[1..], key), key)
  }

  /** In a list ordered by a text, the first element's text is the least. */
  lemma FirstIsLeast<T>(s: seq<T>, f: T -> string)
    requires |s| > 0
    requires forall i, j :: 0 <= i < j < |s| ==> StrLe(f(s[i]), f(s[j]))
    ensures forall x :: x in s ==> StrLe(f(s[0]), f(x))
  {
    StrLeTotal(f(s[0]), f(s[0]));
  }
}
