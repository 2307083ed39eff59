/** Ordinal, ASCII-only versions of the .NET string operations the skin rules use:
    ToLower, Contains, IndexOf, Replace, Insert, Substring and the `^\d+` regular expression. */
module Text {

  predicate IsUpper(c: char) { 'A' <= c <= 'Z' }

  predicate IsDigit(c: char) { '0' <= c <= '9' }

  predicate AllDigits(s: string) { forall i :: 0 <= i < |s| ==> IsDigit(s[i]) }

  /** ASCII lower-casing of one character; every other character is left alone. */
  function LowerChar(c: char): (r: char)
    ensures !IsUpper(r)
    ensures !IsUpper(c) ==> r == c
    ensures IsDigit(r) <==> IsDigit(c)
  {
    if IsUpper(c) then (c as int + 32) as char else c
  }

  /** `string.ToLower()`, restricted to ASCII letters. */
  function Lower(s: string): (r: string)
    ensures |r| == |s|
    ensures forall i :: 0 <= i < |s| ==> r[i] == LowerChar(s[i])
  {
    if s == [] then [] else [LowerChar(s[0])] + Lower(s[1..])
  }

  lemma LowerAppend(a: string, b: string)
    ensures Lower(a + b) == Lower(a) + Lower(b)
  {
  }

  lemma LowerAppend3(a: string, b: string, c: string)
    ensures Lower(a + b + c) == Lower(a) + Lower(b) + Lower(c)
  {
    LowerAppend(a + b, c);
    LowerAppend(a, b);
  }

  lemma LowerIdempotent(s: string)
    ensures Lower(Lower(s)) == Lower(s)
  {
  }

  /** A string without upper-case letters is its own lower-case form. */
  lemma LowerNoUpper(s: string)
    requires forall i :: 0 <= i < |s| ==> !IsUpper(s[i])
    ensures Lower(s) == s
  {
  }

  /** Two strings of the same length that agree letter by letter up to case have the same lower-case form. */
  lemma CaseFold(a: string, b: string)
    requires |a| == |b|
    requires forall i :: 0 <= i < |a| ==> LowerChar(a[i]) == LowerChar(b[i])
    ensures Lower(a) == Lower(b)
  {
  }

  /** The value of `Regex.Match(s, @"^\d+")`: the longest prefix of `s` made of decimal digits
      (empty when the match fails). */
  function DigitRun(s: string): (r: string)
    ensures |r| <= |s| && r == s[..|r|]
    ensures AllDigits(r)
    ensures |r| < |s| ==> !IsDigit(s[|r|])
  {
    if s != [] && IsDigit(s[0]) then [s[0]] + DigitRun(s[1..]) else []
  }

  /** Dropping the first of three pieces leaves the other two. */
  lemma DropPrefix3(p: string, q: string, r: string)
    ensures (p + q + r)[|p|..] == q + r
  {
    assert p + q + r == p + (q + r);
  }

  /** The middle of three pieces, cut out by its offsets. */
  lemma SliceMiddle(p: string, q: string, r: string)
    ensures (p + q + r)[|p|..|p| + |q|] == q
  {
  }

  /** Lower-casing keeps a first character that is not a digit a non-digit. */
  lemma LowerKeepsNonDigitFirst(s: string)
    requires s == [] || !IsDigit(s[0])
    ensures Lower(s) == [] || !IsDigit(Lower(s)[0])
  {
  }

  /** A run of digits followed by a non-digit (or by nothing) is exactly what `DigitRun` captures. */
  lemma {:induction false} DigitRunOf(d: string, rest: string)
    requires AllDigits(d)
    requires rest == [] || !IsDigit(rest[0])
    ensures DigitRun(d + rest) == d
  {
    if d != [] {
      assert (d + rest)[1..] == d[1..] + rest;
      DigitRunOf(d[1..], rest);
    } else {
      assert d + rest == rest;
    }
  }

  /** `value` occurs in `s` starting at index `i`. */
  predicate OccursAt(s: string, value: string, i: int) {
    0 <= i && i + |value| <= |s| && s[i..i + |value|] == value
  }

  lemma OccursAtShift(a: string, s: string, value: string, i: int)
    requires 0 <= i
    ensures OccursAt(a + s, value, |a| + i) <==> OccursAt(s, value, i)
  {
    if 0 <= i && i + |value| <= |s| {
      assert (a + s)[|a| + i..|a| + i + |value|] == s[i..i + |value|];
    }
  }

  /** Ordinal `s.IndexOf(value)` searching from index `from`. */
  function IndexOfFrom(s: string, value: string, from: nat): (r: int)
    ensures r == -1 ==> forall i :: from <= i ==> !OccursAt(s, value, i)
    ensures r != -1 ==> from <= r && OccursAt(s, value, r) && forall i :: from <= i < r ==> !OccursAt(s, value, i)
    decreases |s| - from
  {
    if from + |value| > |s| then -1
    else if s[from..from + |value|] == value then from
    else IndexOfFrom(s, value, from + 1)
  }

  /** Ordinal `s.IndexOf(value)`: the first index at which `value` occurs, or -1. */
  function IndexOf(s: string, value: string): (r: int)
    ensures r == -1 <==> forall i :: !OccursAt(s, value, i)
    ensures r != -1 ==> 0 <= r && OccursAt(s, value, r) && forall i :: 0 <= i < r ==> !OccursAt(s, value, i)
  {
    IndexOfFrom(s, value, 0)
  }

  /** Ordinal `s.Contains(value)`. */
  function Contains(s: string, value: string): (r: bool)
    ensures r <==> exists i :: OccursAt(s, value, i)
  {
    IndexOf(s, value) != -1
  }

  /** `s.IndexOf(c, startIndex)`: the first index at or after `startIndex` holding `c`, or -1. */
  function IndexOfChar(s: string, c: char, startIndex: nat): (r: int)
    requires startIndex <= |s|
    ensures r == -1 <==> forall i :: startIndex <= i < |s| ==> s[i] != c
    ensures r != -1 ==> startIndex <= r < |s| && s[r] == c && forall i :: startIndex <= i < r ==> s[i] != c
    decreases |s| - startIndex
  {
    if startIndex == |s| then -1
    else if s[startIndex] == c then startIndex
    else IndexOfChar(s, c, startIndex + 1)
  }

  /** In `p + f + q` with `c` absent from `f` and standing first in `q`, the search from `|p|` stops at the
      start of `q`. */
  lemma IndexOfCharSplit(p: string, f: string, q: string, c: char)
    requires c !in f && q != [] && q[0] == c
    ensures IndexOfChar(p + f + q, c, |p|) == |p| + |f|
  {
    var s := p + f + q;
    forall i | |p| <= i < |p| + |f| ensures s[i] != c {
      assert s[i] == f[i - |p|];
    }
    assert s[|p| + |f|] == q[0];
  }

  /** Ordinal `s.Replace(oldValue, newValue)`: every occurrence, scanning left to right without overlap. */
  function Replace(s: string, oldValue: string, newValue: string): (r: string)
    requires oldValue != []
    ensures (forall i :: !OccursAt(s, oldValue, i)) ==> r == s
    decreases |s|
  {
    if |s| < |oldValue| then s
    else if s[..|oldValue|] == oldValue then
      assert OccursAt(s, oldValue, 0);
      assert s == oldValue + s[|oldValue|..];
      newValue + Replace(s[|oldValue|..], oldValue, newValue)
    else
      assert !OccursAt(s, oldValue, 0);
      assert s == [s[0]] + s[1..];
      assert forall i :: OccursAt(s[1..], oldValue, i) ==> OccursAt(s, oldValue, i + 1) by {
        forall i | OccursAt(s[1..], oldValue, i) ensures OccursAt(s, oldValue, i + 1) {
          OccursAtShift([s[0]], s[1..], oldValue, i);
        }
      }
      [s[0]] + Replace(s[1..], oldValue, newValue)
  }

  /** A character that is in neither the replaced value nor the replacement survives `Replace`, and no
      such character appears that was not there before. */
  lemma {:induction false} ReplaceKeepsChar(s: string, oldValue: string, newValue: string, c: char)
    requires oldValue != []
    requires c !in oldValue && c !in newValue
    ensures c in Replace(s, oldValue, newValue) <==> c in s
    decreases |s|
  {
    if |s| < |oldValue| {
    } else if s[..|oldValue|] == oldValue {
      assert s == oldValue + s[|oldValue|..];
      ReplaceKeepsChar(s[|oldValue|..], oldValue, newValue, c);
    } else {
      assert s == [s[0]] + s[1..];
      ReplaceKeepsChar(s[1..], oldValue, newValue, c);
    }
  }

  /** Where no occurrence starts at the front, the first character is kept and the scan moves on. */
  lemma ReplaceStep(s: string, oldValue: string, newValue: string)
    requires oldValue != [] && s != []
    requires !OccursAt(s, oldValue, 0)
    ensures Replace(s, oldValue, newValue) == [s[0]] + Replace(s[1..], oldValue, newValue)
  {
    if |s| < |oldValue| {
      assert forall i :: !OccursAt(s[1..], oldValue, i);
      assert s == [s[0]] + s[1..];
    }
  }

  /** Replacing in `a + rest`, where no occurrence starts inside `a`, leaves `a` untouched. */
  lemma {:induction false} ReplaceSkip(a: string, rest: string, oldValue: string, newValue: string)
    requires oldValue != []
    requires forall i :: 0 <= i < |a| ==> !OccursAt(a + rest, oldValue, i)
    ensures Replace(a + rest, oldValue, newValue) == a + Replace(rest, oldValue, newValue)
  {
    if a == [] {
      assert a + rest == rest;
    } else {
      NoOccurrenceInTail(a, rest, oldValue);
      ReplaceSkip(a[1..], rest, oldValue, newValue);
      ReplaceSkipStep(a, rest, oldValue, newValue);
    }
  }

  /** Dropping the first character of `a` keeps `a`'s positions free of occurrences. */
  lemma NoOccurrenceInTail(a: string, rest: string, oldValue: string)
    requires a != []
    requires forall i :: 0 <= i < |a| ==> !OccursAt(a + rest, oldValue, i)
    ensures forall i :: 0 <= i < |a[1..]| ==> !OccursAt(a[1..] + rest, oldValue, i)
  {
    var tail := a[1..] + rest;
    assert a + rest == [a[0]] + tail;
    forall i | 0 <= i < |a[1..]| ensures !OccursAt(tail, oldValue, i) {
      OccursAtShift([a[0]], tail, oldValue, i);
    }
  }

  /** One step of `ReplaceSkip`: the first character of `a` is kept in front of the rest. */
  lemma ReplaceSkipStep(a: string, rest: string, oldValue: string, newValue: string)
    requires oldValue != [] && a != []
    requires !OccursAt(a + rest, oldValue, 0)
    requires Replace(a[1..] + rest, oldValue, newValue) == a[1..] + Replace(rest, oldValue, newValue)
    ensures Replace(a + rest, oldValue, newValue) == a + Replace(rest, oldValue, newValue)
  {
    var s := a + rest;
    var r := Replace(rest, oldValue, newValue);
    ReplaceStep(s, oldValue, newValue);
    calc {
      Replace(s, oldValue, newValue);
      [s[0]] + Replace(s[1..], oldValue, newValue);
      { assert s[1..] == a[1..] + rest; }
      [a[0]] + Replace(a[1..] + rest, oldValue, newValue);
      [a[0]] + (a[1..] + r);
      { SplitFirst(a, r); }
      a + r;
    }
  }

  lemma SplitFirst(a: string, r: string)
    requires a != []
    ensures [a[0]] + (a[1..] + r) == a + r
  {
  }

  /** Before the first occurrence, `Replace` changes nothing. */
  lemma ReplaceKeepsPrefix(s: string, oldValue: string, newValue: string, m: nat)
    requires oldValue != [] && m <= |s|
    requires forall i :: 0 <= i < m ==> !OccursAt(s, oldValue, i)
    ensures |Replace(s, oldValue, newValue)| >= m
    ensures Replace(s, oldValue, newValue)[..m] == s[..m]
  {
    assert s == s[..m] + s[m..];
    ReplaceSkip(s[..m], s[m..], oldValue, newValue);
  }

  /** An occurrence at the front is replaced and the scan resumes after it. */
  lemma ReplaceHead(rest: string, oldValue: string, newValue: string)
    requires oldValue != []
    ensures Replace(oldValue + rest, oldValue, newValue) == newValue + Replace(rest, oldValue, newValue)
  {
    var s := oldValue + rest;
    assert s[..|oldValue|] == oldValue;
    assert s[|oldValue|..] == rest;
  }

  /** The one occurrence of `oldValue` in `a + oldValue + b` is replaced when none starts inside `a` and
      `b` holds none. */
  lemma ReplaceAround(a: string, b: string, oldValue: string, newValue: string)
    requires oldValue != []
    requires forall i :: 0 <= i < |a| ==> !OccursAt(a + (oldValue + b), oldValue, i)
    requires forall i :: !OccursAt(b, oldValue, i)
    ensures Replace(a + oldValue + b, oldValue, newValue) == a + newValue + b
  {
    assert a + oldValue + b == a + (oldValue + b);
    ReplaceSkip(a, oldValue + b, oldValue, newValue);
    ReplaceHead(b, oldValue, newValue);
  }

  /** If `value` has character `c` at offset `q`, a string without `c` holds no occurrence of `value`. */
  lemma NoCharNoOccurrence(s: string, value: string, q: nat, c: char)
    requires q < |value| && value[q] == c && c !in s
    ensures forall i :: !OccursAt(s, value, i)
  {
    forall i | 0 <= i && i + |value| <= |s| ensures !OccursAt(s, value, i) {
      assert s[i..i + |value|][q] == s[i + q] != c;
    }
  }

  /** No occurrence of `value` starts inside `a` in `a + rest` when `a` lacks the character `c` that `value`
      holds at offset `q`, and the first `q` characters of `rest` are not `c` either. */
  lemma NoOccurrenceStartsIn(a: string, rest: string, value: string, q: nat, c: char)
    requires q < |value| && value[q] == c && c !in a
    requires forall d :: 0 <= d < q && d < |rest| ==> rest[d] != c
    ensures forall i :: 0 <= i < |a| ==> !OccursAt(a + rest, value, i)
  {
    var s := a + rest;
    forall i | 0 <= i < |a| && i + |value| <= |s| ensures !OccursAt(s, value, i) {
      if i + q < |a| {
        assert s[i..i + |value|][q] == a[i + q] != c;
      } else {
        assert s[i..i + |value|][q] == rest[i + q - |a|] != c;
      }
    }
  }

  /** A one-character value occurs exactly where that character stands. */
  lemma OccursAtChar(s: string, c: char, i: int)
    ensures OccursAt(s, [c], i) <==> 0 <= i < |s| && s[i] == c
  {
    if 0 <= i < |s| {
      assert s[i..i + 1] == [s[i]];
    }
  }

  /** `s.Insert(startIndex, value)`. */
  function Insert(s: string, startIndex: nat, value: string): (r: string)
    requires startIndex <= |s|
    ensures |r| == |s| + |value|
    ensures r[..startIndex] == s[..startIndex]
    ensures r[startIndex..startIndex + |value|] == value
    ensures r[startIndex + |value|..] == s[startIndex..]
  {
    s[..startIndex] + value + s[startIndex..]
  }
}
