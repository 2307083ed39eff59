/** The two name matchers of statics/SkinStatic.cs: `IsAnimationFrameOf`, used by the still-frame gates,
    and the per-name test inside `GetSkinCondition` (a case-insensitive literal comparison, then a
    template comparison for names holding the `{n}` placeholder). */
module SkinMatching {
  import opened Text

  /** `IsAnimationFrameOf(elementName, animationName)`: capture the digits of `elementName` from where `{n}`
      stands in `animationName`, put them in place of `{n}`, lower-case the result and compare it with
      `elementName` as it is. */
  predicate IsAnimationFrameOf(elementName: string, animationName: string): (r: bool)
    ensures r ==> Contains(animationName, "{n}") && Lower(elementName) == elementName
  {
    var startIndex := IndexOf(animationName, "{n}");
    startIndex != -1 && |elementName| > startIndex &&
    Lower(Replace(animationName, "{n}", DigitRun(elementName[startIndex..]))) == elementName
  }

  /** The literal test of `GetSkinCondition`: both sides lower-cased, so the names agree character by
      character up to case. */
  predicate LiteralMatch(otherElementName: string, elementName: string): (r: bool)
    ensures r <==> |otherElementName| == |elementName| &&
                   forall i :: 0 <= i < |elementName| ==> LowerChar(otherElementName[i]) == LowerChar(elementName[i])
  {
    Lower(otherElementName) == Lower(elementName)
  }

  /** The template test of `GetSkinCondition`: the frame is whatever `elementName` holds from the
      placeholder's offset up to the next '.', and only the template side is lower-cased. So only a
      lower-case name holding a '.' can match. */
  predicate TemplateMatch(otherElementName: string, elementName: string): (r: bool)
    ensures r ==> Lower(elementName) == elementName && '.' in elementName
  {
    Contains(otherElementName, "{n}") &&
    var startIndex := IndexOf(otherElementName, "{n}");
    startIndex != -1 && |elementName| > startIndex && IndexOfChar(elementName, '.', startIndex) != -1 &&
    var endIndex := IndexOfChar(elementName, '.', startIndex);
    Lower(Replace(otherElementName, "{n}", elementName[startIndex..endIndex])) == elementName
  }

  /** One name of a rule matches the queried element name. A name that is not all lower case can only
      match literally. */
  predicate NameMatches(otherElementName: string, elementName: string): (r: bool)
    ensures r && Lower(elementName) != elementName ==> LiteralMatch(otherElementName, elementName)
  {
    LiteralMatch(otherElementName, elementName) || TemplateMatch(otherElementName, elementName)
  }

  /** A template `x + "{n}" + y` with no other brace: the placeholder is found at `|x|` and replacing it
      puts the replacement exactly there. */
  lemma PlaceholderSplit(x: string, y: string, f: string)
    requires '{' !in x && '{' !in y
    ensures IndexOf(x + "{n}" + y, "{n}") == |x|
    ensures Contains(x + "{n}" + y, "{n}")
    ensures Replace(x + "{n}" + y, "{n}", f) == x + f + y
  {
    var t := x + "{n}" + y;
    assert t == x + ("{n}" + y);
    NoOccurrenceStartsIn(x, "{n}" + y, "{n}", 0, '{');
    assert t[|x|..|x| + 3] == "{n}";
    assert OccursAt(t, "{n}", |x|);
    NoCharNoOccurrence(y, "{n}", 0, '{');
    ReplaceAround(x, y, "{n}", f);
  }

  /** An animated name `a + "-{n}" + b` with no other brace: it contains `-{n}`, and removing `-{n}`
      leaves `a + b`. */
  lemma DashPlaceholderSplit(a: string, b: string)
    requires '{' !in a && '{' !in b
    ensures Contains(a + "-{n}" + b, "-{n}")
    ensures Replace(a + "-{n}" + b, "-{n}", "") == a + b
  {
    DashPlaceholderOccurs(a, b);
    DashPlaceholderRemoved(a, b);
  }

  lemma DashPlaceholderOccurs(a: string, b: string)
    ensures Contains(a + "-{n}" + b, "-{n}")
  {
    var t := a + "-{n}" + b;
    assert t[|a|..|a| + 4] == "-{n}";
    assert OccursAt(t, "-{n}", |a|);
  }

  lemma DashPlaceholderRemoved(a: string, b: string)
    requires '{' !in a && '{' !in b
    ensures Replace(a + "-{n}" + b, "-{n}", "") == a + b
  {
    assert ("-{n}" + b)[0] == '-';
    NoOccurrenceStartsIn(a, "-{n}" + b, "-{n}", 1, '{');
    NoCharNoOccurrence(b, "-{n}", 1, '{');
    ReplaceAround(a, b, "-{n}", "");
    assert a + "" + b == a + b;
  }

  /** The frame `GetSkinCondition` cuts out of a name it matched against `x + "{n}" + y` is dot-free and
      already lower-case, and the name is the lower-cased template around it. */
  lemma TemplateMatchSplits(x: string, y: string, name: string)
    requires '{' !in x && '{' !in y
    requires TemplateMatch(x + "{n}" + y, name)
    ensures exists f :: '.' !in f && Lower(f) == f && name == Lower(x) + f + Lower(y)
  {
    var k := |x|;
    PlaceholderSplit(x, y, []);
    var e := IndexOfChar(name, '.', k);
    PlaceholderSplit(x, y, name[k..e]);
    FrameIsDotFree(x, y, name, e);
  }

  lemma FrameIsDotFree(x: string, y: string, name: string, e: int)
    requires |x| <= e <= |name|
    requires forall i :: |x| <= i < e ==> name[i] != '.'
    requires name == Lower(x + name[|x|..e] + y)
    ensures exists f :: '.' !in f && Lower(f) == f && name == Lower(x) + f + Lower(y)
  {
    var k := |x|;
    var f := name[k..e];
    LowerAppend3(x, f, y);
    assert name[k..e] == Lower(f);
    assert '.' !in f by {
      forall i | 0 <= i < |f| ensures f[i] != '.' {
        assert f[i] == name[k + i];
      }
    }
  }

  /** Conversely, any dot-free lower-case text in place of `{n}` gives a name the template matches. */
  lemma SplitNameMatchesTemplate(x: string, y: string, f: string)
    requires '{' !in x && '{' !in y
    requires y != [] && y[0] == '.'
    requires '.' !in f && Lower(f) == f
    ensures TemplateMatch(x + "{n}" + y, Lower(x) + f + Lower(y))
  {
    var lx, ly := Lower(x), Lower(y);
    assert ly[0] == '.';
    IndexOfCharSplit(lx, f, ly, '.');
    SliceMiddle(lx, f, ly);
    PlaceholderSplit(x, y, f);
    LowerAppend3(x, f, y);
  }

  /** Template matching, stated without the search: for a template `x + "{n}" + ".…"`, a name matches
      exactly when it is the lower-cased template with some dot-free, already lower-case text in place of
      `{n}`. The text need not be digits. */
  lemma TemplateMatchIff(x: string, y: string, name: string)
    requires '{' !in x && '{' !in y
    requires y != [] && y[0] == '.'
    ensures TemplateMatch(x + "{n}" + y, name) <==>
            exists f :: '.' !in f && Lower(f) == f && name == Lower(x) + f + Lower(y)
  {
    if TemplateMatch(x + "{n}" + y, name) {
      TemplateMatchSplits(x, y, name);
    }
    if exists f :: '.' !in f && Lower(f) == f && name == Lower(x) + f + Lower(y) {
      var f :| '.' !in f && Lower(f) == f && name == Lower(x) + f + Lower(y);
      SplitNameMatchesTemplate(x, y, f);
    }
  }

  /** A frame `IsAnimationFrameOf` accepts is the lower-cased template with a run of digits in place of `{n}`. */
  lemma AnimationFrameSplits(x: string, y: string, e: string)
    requires '{' !in x && '{' !in y
    requires IsAnimationFrameOf(e, x + "{n}" + y)
    ensures |x| < |e| && exists d :: AllDigits(d) && e == Lower(x) + d + Lower(y)
  {
    PlaceholderSplit(x, y, []);
    var d := DigitRun(e[|x|..]);
    PlaceholderSplit(x, y, d);
    LowerAppend3(x, d, y);
    LowerNoUpper(d);
  }

  /** Conversely, every digit run in place of `{n}` is accepted when the placeholder is not followed by a digit. */
  lemma DigitsMakeAnimationFrame(x: string, y: string, d: string)
    requires '{' !in x && '{' !in y
    requires y == [] || !IsDigit(y[0])
    requires AllDigits(d) && |x| < |Lower(x) + d + Lower(y)|
    ensures IsAnimationFrameOf(Lower(x) + d + Lower(y), x + "{n}" + y)
  {
    var e := Lower(x) + d + Lower(y);
    PlaceholderSplit(x, y, d);
    FrameDigitRun(x, y, d);
    LowerAroundDigits(x, y, d);
  }

  /** The digit run `IsAnimationFrameOf` captures from `Lower(x) + d + Lower(y)` at `|x|` is `d`. */
  lemma FrameDigitRun(x: string, y: string, d: string)
    requires y == [] || !IsDigit(y[0])
    requires AllDigits(d) && |x| < |Lower(x) + d + Lower(y)|
    ensures DigitRun((Lower(x) + d + Lower(y))[|x|..]) == d
  {
    var lx, ly := Lower(x), Lower(y);
    LowerKeepsNonDigitFirst(y);
    DropPrefix3(lx, d, ly);
    DigitRunOf(d, ly);
  }

  /** Lower-casing keeps a digit run and distributes over the pieces around it. */
  lemma LowerAroundDigits(x: string, y: string, d: string)
    requires AllDigits(d)
    ensures Lower(x + d + y) == Lower(x) + d + Lower(y)
  {
    LowerAppend3(x, d, y);
    LowerNoUpper(d);
  }

  /** `IsAnimationFrameOf`, stated without the search: for a template `x + "{n}" + y` whose placeholder is
      not followed by a digit, an element name is a frame exactly when it is longer than `x` and is the
      lower-cased template with some run of decimal digits (possibly empty) in place of `{n}`. */
  lemma AnimationFrameIff(x: string, y: string, e: string)
    requires '{' !in x && '{' !in y
    requires y == [] || !IsDigit(y[0])
    ensures IsAnimationFrameOf(e, x + "{n}" + y) <==>
            |x| < |e| && exists d :: AllDigits(d) && e == Lower(x) + d + Lower(y)
  {
    if IsAnimationFrameOf(e, x + "{n}" + y) {
      AnimationFrameSplits(x, y, e);
    }
    if |x| < |e| && exists d :: AllDigits(d) && e == Lower(x) + d + Lower(y) {
      var d :| AllDigits(d) && e == Lower(x) + d + Lower(y);
      DigitsMakeAnimationFrame(x, y, d);
    }
  }

  /** A frame holds only digits in place of `{n}`: putting any other character there gives no frame. */
  lemma NonDigitIsNoFrame(x: string, y: string, c: char)
    requires '{' !in x && '{' !in y
    requires y == [] || !IsDigit(y[0])
    requires !IsDigit(c)
    ensures !IsAnimationFrameOf(Lower(x) + [c] + Lower(y), x + "{n}" + y)
  {
    var e := Lower(x) + [c] + Lower(y);
    AnimationFrameIff(x, y, e);
    forall d | AllDigits(d) ensures e != Lower(x) + d + Lower(y) {
      if |d| == 1 {
        assert e[|x|] == c;
        assert (Lower(x) + d + Lower(y))[|x|] == d[0];
      }
    }
  }

  /** Template matching is case-sensitive on the queried name: only all-lower-case names can match. */
  lemma TemplateMatchIsLowerCase(otherElementName: string, elementName: string)
    ensures TemplateMatch(otherElementName, elementName) ==> Lower(elementName) == elementName
  {
    if TemplateMatch(otherElementName, elementName) {
      var startIndex := IndexOf(otherElementName, "{n}");
      var endIndex := IndexOfChar(elementName, '.', startIndex);
      LowerIdempotent(Replace(otherElementName, "{n}", elementName[startIndex..endIndex]));
    }
  }

  /** The same holds of `IsAnimationFrameOf`: a file name with an upper-case letter is never a frame. */
  lemma AnimationFrameIsLowerCase(elementName: string, animationName: string)
    ensures IsAnimationFrameOf(elementName, animationName) ==> Lower(elementName) == elementName
  {
    if IsAnimationFrameOf(elementName, animationName) {
      var startIndex := IndexOf(animationName, "{n}");
      LowerIdempotent(Replace(animationName, "{n}", DigitRun(elementName[startIndex..])));
    }
  }

  /** Literal matching ignores case: names with the same lower-case form match the same literals. */
  lemma LiteralMatchIgnoresCase(otherElementName: string, name1: string, name2: string)
    requires Lower(name1) == Lower(name2)
    ensures LiteralMatch(otherElementName, name1) <==> LiteralMatch(otherElementName, name2)
  {
  }

  /** A rule name that holds no brace among its first `q + 1` characters matches only names that are longer than
      `q` and agree with it, up to case, at position `q`. */
  lemma MatchAgreesAt(otherElementName: string, elementName: string, q: nat)
    requires q < |otherElementName| && '{' !in otherElementName[..q + 1]
    ensures NameMatches(otherElementName, elementName) ==>
              q < |elementName| && LowerChar(otherElementName[q]) == LowerChar(elementName[q])
  {
    if LiteralMatch(otherElementName, elementName) {
      assert Lower(otherElementName)[q] == Lower(elementName)[q];
    }
    if TemplateMatch(otherElementName, elementName) {
      TemplateAgreesAt(otherElementName, elementName, q);
    }
  }

  lemma TemplateAgreesAt(p: string, elementName: string, q: nat)
    requires q < |p| && '{' !in p[..q + 1]
    requires TemplateMatch(p, elementName)
    ensures q < |elementName| && LowerChar(p[q]) == LowerChar(elementName[q])
  {
    var k := IndexOf(p, "{n}");
    var endIndex := IndexOfChar(elementName, '.', k);
    var r := Replace(p, "{n}", elementName[k..endIndex]);
    assert elementName == Lower(r);
    NoPlaceholderBefore(p, q);
    ReplaceKeepsPrefix(p, "{n}", elementName[k..endIndex], q + 1);
    assert r[..q + 1][q] == p[q];
  }

  /** No placeholder starts within a brace-free prefix. */
  lemma NoPlaceholderBefore(p: string, q: nat)
    requires q < |p| && '{' !in p[..q + 1]
    ensures forall i :: 0 <= i < q + 1 ==> !OccursAt(p, "{n}", i)
  {
    forall i | 0 <= i < q + 1 ensures !OccursAt(p, "{n}", i) {
      if i + 3 <= |p| {
        assert p[i..i + 3][0] == p[i] == p[..q + 1][i];
      }
    }
  }

  /** Some name of the list matches the queried element name. */
  predicate AnyNameMatches(names: seq<string>, elementName: string) {
    exists j :: 0 <= j < |names| && NameMatches(names[j], elementName)
  }

  /** A list that holds a name matches it. */
  lemma MatchesListed(names: seq<string>, j: nat, elementName: string)
    requires j < |names| && names[j] == elementName
    ensures AnyNameMatches(names, elementName)
  {
    assert LiteralMatch(names[j], elementName);
  }

  /** A name that matches a slice of a list matches the list. */
  lemma SliceMatches(names: seq<string>, lo: nat, hi: nat, elementName: string)
    requires lo <= hi <= |names|
    ensures AnyNameMatches(names[lo..hi], elementName) ==> AnyNameMatches(names, elementName)
  {
    if AnyNameMatches(names[lo..hi], elementName) {
      var j :| 0 <= j < hi - lo && NameMatches(names[lo..hi][j], elementName);
      assert names[lo..hi][j] == names[lo + j];
    }
  }

  lemma AnyNameMatchesAppend(a: seq<string>, b: seq<string>, elementName: string)
    ensures AnyNameMatches(a + b, elementName) <==> AnyNameMatches(a, elementName) || AnyNameMatches(b, elementName)
  {
    if AnyNameMatches(a + b, elementName) {
      var j :| 0 <= j < |a + b| && NameMatches((a + b)[j], elementName);
      if j >= |a| {
        assert (a + b)[j] == b[j - |a|];
      }
    }
    if AnyNameMatches(a, elementName) {
      var j :| 0 <= j < |a| && NameMatches(a[j], elementName);
      assert (a + b)[j] == a[j];
    }
    if AnyNameMatches(b, elementName) {
      var j :| 0 <= j < |b| && NameMatches(b[j], elementName);
      assert (a + b)[|a| + j] == b[j];
    }
  }

  /** The first three characters of a name are neither a brace nor an upper-case letter. */
  predicate Plain3(p: string) {
    |p| >= 3 && p[0] != '{' && p[1] != '{' && p[2] != '{' && !IsUpper(p[0]) && !IsUpper(p[1]) && !IsUpper(p[2])
  }

  /** A list of rule names none of which can match `elementName`, judged by the first three characters alone. */
  lemma NoneMatchByPrefix(names: seq<string>, elementName: string)
    requires Plain3(elementName)
    requires forall j :: 0 <= j < |names| ==>
      Plain3(names[j]) &&
      (names[j][0] != elementName[0] || names[j][1] != elementName[1] || names[j][2] != elementName[2])
    ensures !AnyNameMatches(names, elementName)
  {
    forall j | 0 <= j < |names| ensures !NameMatches(names[j], elementName) {
      var p := names[j];
      assert '{' !in p[..1] && '{' !in p[..2] && '{' !in p[..3] by {
        assert p[..3] == [p[0], p[1], p[2]] && p[..2] == [p[0], p[1]] && p[..1] == [p[0]];
      }
      MatchAgreesAt(p, elementName, 0);
      MatchAgreesAt(p, elementName, 1);
      MatchAgreesAt(p, elementName, 2);
    }
  }

  /** A brace-free rule name that differs from `elementName` at a position where neither is upper-case
      does not match it. */
  lemma MismatchAt(otherElementName: string, elementName: string, q: nat)
    requires '{' !in otherElementName && q < |otherElementName| && q < |elementName|
    requires !IsUpper(otherElementName[q]) && !IsUpper(elementName[q]) && otherElementName[q] != elementName[q]
    ensures !NameMatches(otherElementName, elementName)
  {
    var prefix := otherElementName[..q + 1];
    assert forall i :: 0 <= i < |prefix| ==> prefix[i] == otherElementName[i];
    MatchAgreesAt(otherElementName, elementName, q);
  }

  /** No name of `names` matches when each is brace-free and differs from `elementName` in a lower-case
      character at its own position `qs[j]`. */
  lemma NoneMatchAtEach(names: seq<string>, elementName: string, qs: seq<nat>)
    requires |qs| == |names|
    requires forall j :: 0 <= j < |names| ==>
      '{' !in names[j] && qs[j] < |names[j]| && qs[j] < |elementName| &&
      !IsUpper(names[j][qs[j]]) && !IsUpper(elementName[qs[j]]) && names[j][qs[j]] != elementName[qs[j]]
    ensures !AnyNameMatches(names, elementName)
  {
    forall j | 0 <= j < |names| ensures !NameMatches(names[j], elementName) {
      MismatchAt(names[j], elementName, qs[j]);
    }
  }

  /** No name of `names` matches when each is brace-free and differs from `elementName` in a lower-case
      character at position `q`. */
  lemma NoneMatchAt(names: seq<string>, elementName: string, q: nat)
    requires q < |elementName| && !IsUpper(elementName[q])
    requires forall j :: 0 <= j < |names| ==>
      '{' !in names[j] && q < |names[j]| && !IsUpper(names[j][q]) && names[j][q] != elementName[q]
    ensures !AnyNameMatches(names, elementName)
  {
    forall j | 0 <= j < |names| ensures !NameMatches(names[j], elementName) {
      MismatchAt(names[j], elementName, q);
    }
  }

  /** No name of `names` matches when each holds no brace up to its own position `qs[j]` and differs there
      from `elementName` in a lower-case character. */
  lemma NoneMatchBeforeBrace(names: seq<string>, elementName: string, qs: seq<nat>)
    requires |qs| == |names|
    requires forall j :: 0 <= j < |names| ==>
      qs[j] < |names[j]| && qs[j] < |elementName| && (forall i :: 0 <= i <= qs[j] ==> names[j][i] != '{') &&
      !IsUpper(names[j][qs[j]]) && !IsUpper(elementName[qs[j]]) && names[j][qs[j]] != elementName[qs[j]]
    ensures !AnyNameMatches(names, elementName)
  {
    forall j | 0 <= j < |names| ensures !NameMatches(names[j], elementName) {
      var p := names[j];
      var prefix := p[..qs[j] + 1];
      assert forall i :: 0 <= i < |prefix| ==> prefix[i] == p[i];
      MatchAgreesAt(p, elementName, qs[j]);
    }
  }
}
