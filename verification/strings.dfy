/**
  The string operations the page scripts use: `toLowerCase`, `trim`,
  `includes`, `join(" ")`, `split(" ")`, the `_` to space replacement, the
  `\b\w` word-start capitalisation and the `\s+` run replacement.
  Case mapping is ASCII-only, and `\w` is the ASCII word class, as in a
  JavaScript regular expression without the `u` flag.
 */
module Strings {

  /** JavaScript's WhiteSpace and LineTerminator characters: what `trim` removes and `\s` matches. */
  predicate IsSpace(c: char) {
    || c == '\t' || c == '\n' || c == '\U{000B}' || c == '\U{000C}' || c == '\r' || c == ' '
    || c == '\U{00A0}' || c == '\U{1680}' || ('\U{2000}' <= c <= '\U{200A}')
    || c == '\U{2028}' || c == '\U{2029}' || c == '\U{202F}' || c == '\U{205F}'
    || c == '\U{3000}' || c == '\U{FEFF}'
  }

  /** The regular-expression class `\w`. */
  predicate IsWordChar(c: char) {
    ('a' <= c <= 'z') || ('A' <= c <= 'Z') || ('0' <= c <= '9') || c == '_'
  }

  function LowerChar(c: char): char {
    if 'A' <= c <= 'Z' then (c as int + 32) as char else c
  }

  function UpperChar(c: char): char {
    if 'a' <= c <= 'z' then (c as int - 32) as char else c
  }

  /** `s.toLowerCase()`, character by character. */
  function Lower(s: string): (r: string)
    ensures |r| == |s|
    ensures forall i :: 0 <= i < |s| ==> r[i] == LowerChar(s[i])
  {
    seq(|s|, i requires 0 <= i < |s| => LowerChar(s[i]))
  }

  lemma LowerSlice(s: string, i: nat, j: nat)
    requires i <= j <= |s|
    ensures Lower(s[i..j]) == Lower(s)[i..j]
  {
  }

  lemma LowerIdempotent(s: string)
    ensures Lower(Lower(s)) == Lower(s)
  {
  }

  /** The number of whitespace characters at the start of `s`. */
  function LeadingSpaces(s: string): (n: nat)
    ensures n <= |s|
    ensures forall i :: 0 <= i < n ==> IsSpace(s[i])
    ensures n < |s| ==> !IsSpace(s[n])
  {
    if |s| == 0 || !IsSpace(s[0]) then 0 else 1 + LeadingSpaces(s[1..])
  }

  /** The number of whitespace characters at the end of `s`. */
  function TrailingSpaces(s: string): (n: nat)
    ensures n <= |s|
    ensures forall i :: |s| - n <= i < |s| ==> IsSpace(s[i])
    ensures n < |s| ==> !IsSpace(s[|s| - n - 1])
  {
    if |s| == 0 || !IsSpace(s[|s| - 1]) then 0 else 1 + TrailingSpaces(s[..|s| - 1])
  }

  /**
    `s.trim()`: the result is a slice of `s`, only whitespace was cut on
    either side, and it neither starts nor ends with whitespace.
   */
  function Trim(s: string): (r: string)
    ensures exists a :: TrimmedAt(s, r, a)
    ensures |r| > 0 ==> !IsSpace(r[0]) && !IsSpace(r[|r| - 1])
    ensures r == "" <==> forall i :: 0 <= i < |s| ==> IsSpace(s[i])
  {
    var a := LeadingSpaces(s);
    var t := s[a..];
    var r := t[..|t| - TrailingSpaces(t)];
    assert TrimmedAt(s, r, a);
    r
  }

  /**
    Trimming cuts exactly the padding: a string that neither starts nor ends
    with whitespace is kept, and so is its core when one space pads each side.
   */
  lemma TrimPadding(t: string)
    requires |t| > 0 && !IsSpace(t[0]) && !IsSpace(t[|t| - 1])
    ensures Trim(t) == t
    ensures Trim(" " + t + " ") == t
  {
    var r := Trim(t);
    var a :| TrimmedAt(t, r, a);
    assert r != "" by {
      assert !IsSpace(t[0]);
    }
    assert a == 0;
    assert a + |r| == |t|;
    var s := " " + t + " ";
    var r' := Trim(s);
    var a' :| TrimmedAt(s, r', a');
    assert r' != "" by {
      assert !IsSpace(s[1]);
    }
    assert a' != 0;
    assert a' == 1 by {
      assert !IsSpace(s[1]);
    }
    assert a' + |r'| == |s| - 1 by {
      assert !IsSpace(s[|s| - 2]);
    }
    assert r' == s[1..|s| - 1];
    assert s[1..|s| - 1] == t;
  }

  /** A single trailing space is cut, and nothing else. */
  lemma TrimTrailingSpace(t: string)
    requires |t| > 0 && !IsSpace(t[0]) && !IsSpace(t[|t| - 1])
    ensures Trim(t + " ") == t
  {
    var s := t + " ";
    var r := Trim(s);
    var a :| TrimmedAt(s, r, a);
    assert r != "" by {
      assert !IsSpace(s[0]);
    }
    assert a == 0 by {
      assert !IsSpace(s[0]);
    }
    assert a + |r| == |s| - 1 by {
      assert !IsSpace(s[|s| - 2]);
    }
    assert r == s[..|s| - 1];
    assert s[..|s| - 1] == t;
  }

  /** `r` is the slice of `s` starting at `a`, with only whitespace on either side of it. */
  predicate TrimmedAt(s: string, r: string, a: int) {
    && 0 <= a <= |s| - |r| && r == s[a..a + |r|]
    && (forall i :: 0 <= i < a ==> IsSpace(s[i]))
    && (forall i :: a + |r| <= i < |s| ==> IsSpace(s[i]))
  }

  /** `hay.includes(needle)`. */
  predicate Contains(hay: string, needle: string) {
    exists i | 0 <= i <= |hay| - |needle| :: OccursAt(hay, needle, i)
  }

  predicate OccursAt(hay: string, needle: string, i: int) {
    0 <= i <= |hay| - |needle| && hay[i..i + |needle|] == needle
  }

  lemma ContainsSlice(s: string, i: nat, j: nat)
    requires i <= j <= |s|
    ensures Contains(s, s[i..j])
  {
    assert OccursAt(s, s[i..j], i);
  }

  lemma {:induction false} ContainsTransitive(a: string, b: string, c: string)
    requires Contains(a, b) && Contains(b, c)
    ensures Contains(a, c)
  {
    var i :| 0 <= i <= |a| - |b| && OccursAt(a, b, i);
    var j :| 0 <= j <= |b| - |c| && OccursAt(b, c, j);
    assert forall k :: 0 <= k < |b| ==> b[k] == a[i + k];
    assert forall k :: 0 <= k < |c| ==> c[k] == b[j + k];
    assert a[i + j..i + j + |c|] == c;
    assert OccursAt(a, c, i + j);
  }

  lemma ContainsLower(a: string, b: string)
    requires Contains(a, b)
    ensures Contains(Lower(a), Lower(b))
  {
    var i :| 0 <= i <= |a| - |b| && OccursAt(a, b, i);
    LowerSlice(a, i, i + |b|);
    assert OccursAt(Lower(a), Lower(b), i);
  }

  /** `parts.join(" ")`. */
  function JoinSpace(parts: seq<string>): string {
    if |parts| == 0 then ""
    else if |parts| == 1 then parts[0]
    else parts[0] + " " + JoinSpace(parts[1..])
  }

  /** Joining non-empty words gives the empty string only when there are none. */
  lemma {:induction false} JoinSpaceEmpty(parts: seq<string>)
    requires forall i :: 0 <= i < |parts| ==> parts[i] != ""
    ensures JoinSpace(parts) == "" <==> parts == []
  {
    if |parts| > 1 {
      assert |JoinSpace(parts)| >= |parts[0]|;
    }
  }

  /** Every part can be found in the joined text. */
  lemma {:induction false} JoinSpaceContainsPart(parts: seq<string>, i: int)
    requires 0 <= i < |parts|
    ensures Contains(JoinSpace(parts), parts[i])
  {
    var j := JoinSpace(parts);
    if |parts| == 1 {
      ContainsSlice(j, 0, |j|);
      assert j[0..|j|] == j;
    } else {
      var rest := JoinSpace(parts[1..]);
      assert j == parts[0] + " " + rest;
      if i == 0 {
        ContainsSlice(j, 0, |parts[0]|);
        assert j[0..|parts[0]|] == parts[0];
      } else {
        JoinSpaceContainsPart(parts[1..], i - 1);
        ContainsSlice(j, |parts[0]| + 1, |j|);
        assert j[|parts[0]| + 1..|j|] == rest;
        ContainsTransitive(j, rest, parts[i]);
      }
    }
  }

  /** The index of the first `' '` in `s`, or `|s|` when there is none. */
  function IndexOfSpace(s: string): (k: nat)
    ensures k <= |s|
    ensures forall i :: 0 <= i < k ==> s[i] != ' '
    ensures k < |s| ==> s[k] == ' '
  {
    if |s| == 0 || s[0] == ' ' then 0 else 1 + IndexOfSpace(s[1..])
  }

  /** `s.split(" ")`. */
  function SplitSpace(s: string): seq<string>
    decreases |s|
  {
    var k := IndexOfSpace(s);
    if k == |s| then [s] else [s[..k]] + SplitSpace(s[k + 1..])
  }

  predicate NoSpaceChar(s: string) {
    forall i :: 0 <= i < |s| ==> s[i] != ' '
  }

  /** Splitting stops at the space that ends a first word without spaces. */
  lemma SplitFirstWord(p: string, rest: string)
    requires NoSpaceChar(p)
    ensures SplitSpace(p + " " + rest) == [p] + SplitSpace(rest)
  {
    var s := p + " " + rest;
    assert s[|p|] == ' ';
    assert forall i :: 0 <= i < |p| ==> s[i] == p[i];
    assert IndexOfSpace(s) == |p|;
    assert s[..|p|] == p;
    assert s[|p| + 1..] == rest;
  }

  /** Joining words that hold no space and splitting the result gives the words back. */
  lemma {:induction false} SplitJoin(parts: seq<string>)
    requires |parts| > 0
    requires forall i :: 0 <= i < |parts| ==> NoSpaceChar(parts[i])
    ensures SplitSpace(JoinSpace(parts)) == parts
  {
    if |parts| == 1 {
      assert IndexOfSpace(parts[0]) == |parts[0]|;
    } else {
      SplitFirstWord(parts[0], JoinSpace(parts[1..]));
      SplitJoin(parts[1..]);
      assert parts == [parts[0]] + parts[1..];
    }
  }

  /** `s.replace(/x/g, y)` for single characters `x` and `y`. */
  function ReplaceChar(s: string, x: char, y: char): (r: string)
    ensures |r| == |s|
    ensures forall i :: 0 <= i < |s| ==> r[i] == (if s[i] == x then y else s[i])
  {
    seq(|s|, i requires 0 <= i < |s| => if s[i] == x then y else s[i])
  }

  /** A position where `\b\w` matches: a word character not preceded by one. */
  predicate WordStart(s: string, i: nat)
    requires i < |s|
  {
    IsWordChar(s[i]) && (i == 0 || !IsWordChar(s[i - 1]))
  }

  /** `s.replace(/\b\w/g, c => c.toUpperCase())`. */
  function TitleWords(s: string): (r: string)
    ensures |r| == |s|
  {
    seq(|s|, i requires 0 <= i < |s| => if WordStart(s, i) then UpperChar(s[i]) else s[i])
  }

  /**
    Capitalising word starts changes letter case only: the word starts become
    upper case and nothing else moves.
   */
  lemma TitleWordsOnlyChangesCase(s: string)
    ensures Lower(TitleWords(s)) == Lower(s)
    ensures forall i :: 0 <= i < |s| && WordStart(s, i) ==> TitleWords(s)[i] == UpperChar(s[i])
    ensures forall i :: 0 <= i < |s| && !WordStart(s, i) ==> TitleWords(s)[i] == s[i]
  {
    var t := TitleWords(s);
    forall i | 0 <= i < |s|
      ensures LowerChar(t[i]) == LowerChar(s[i])
    {
      if WordStart(s, i) && 'a' <= s[i] <= 'z' {
        assert t[i] == (s[i] as int - 32) as char;
      }
    }
  }

  /** `s.replace(/\s+/g, "_")`: every maximal run of whitespace becomes one `_`. */
  function CollapseSpaces(s: string): (r: string)
    ensures |r| <= |s|
    ensures forall i :: 0 <= i < |r| ==> !IsSpace(r[i])
    decreases |s|
  {
    if |s| == 0 then ""
    else if IsSpace(s[0]) then "_" + CollapseSpaces(s[LeadingSpaces(s)..])
    else [s[0]] + CollapseSpaces(s[1..])
  }

  /** A name without whitespace is left as it is. */
  lemma {:induction false} CollapseSpacesNoSpace(s: string)
    requires forall i :: 0 <= i < |s| ==> !IsSpace(s[i])
    ensures CollapseSpaces(s) == s
    decreases |s|
  {
    if |s| > 0 {
      CollapseSpacesNoSpace(s[1..]);
      assert s == [s[0]] + s[1..];
    }
  }

  /** Lower-casing works part by part. */
  lemma LowerAppend(x: string, y: string)
    ensures Lower(x + y) == Lower(x) + Lower(y)
  {
    assert forall i :: 0 <= i < |x + y| ==> Lower(x + y)[i] == (Lower(x) + Lower(y))[i];
  }

  /** Lower-casing never turns a character into whitespace or whitespace into anything else. */
  lemma LowerKeepsSpace(s: string)
    ensures forall i :: 0 <= i < |s| ==> (IsSpace(Lower(s)[i]) <==> IsSpace(s[i]))
  {
  }

  /** Lower-casing works part by part, and keeps whitespace where it was. */
  lemma LowerConcat(a: string, w: string, q: string)
    ensures Lower(a + w + q) == Lower(a) + Lower(w) + Lower(q)
    ensures forall i :: 0 <= i < |w| ==> (IsSpace(Lower(w)[i]) <==> IsSpace(w[i]))
  {
    LowerAppend(a, w);
    LowerAppend(a + w, q);
  }

  /** A leading run of whitespace becomes a single `_`. */
  lemma CollapseLeadingRun(w: string, q: string)
    requires |w| > 0 && forall i :: 0 <= i < |w| ==> IsSpace(w[i])
    requires |q| == 0 || !IsSpace(q[0])
    ensures CollapseSpaces(w + q) == "_" + CollapseSpaces(q)
  {
    var s := w + q;
    assert forall i :: 0 <= i < |w| ==> s[i] == w[i];
    if |q| > 0 {
      assert s[|w|] == q[0];
    }
    assert LeadingSpaces(s) == |w|;
    assert s[|w|..] == q;
  }

  /** A word, then a run of whitespace: the word is kept and the run becomes a single `_`. */
  lemma {:induction false} CollapseSpacesRun(p: string, w: string, q: string)
    requires forall i :: 0 <= i < |p| ==> !IsSpace(p[i])
    requires |w| > 0 && forall i :: 0 <= i < |w| ==> IsSpace(w[i])
    requires |q| == 0 || !IsSpace(q[0])
    ensures CollapseSpaces(p + w + q) == p + "_" + CollapseSpaces(q)
    decreases |p|
  {
    if |p| == 0 {
      assert p + w + q == w + q;
      CollapseLeadingRun(w, q);
    } else {
      CollapseSpacesRun(p[1..], w, q);
      assert (p + w + q)[1..] == p[1..] + w + q;
    }
  }
}
