/** The static class `SkinStatic` of statics/SkinStatic.cs: a list of skin conditions that is filled on
    the first query, and the query itself. The static fields become the fields of one registry object. */
module SkinStatic {
  import opened Text
  import opened Mapset
  import opened SkinMatching
  import opened SkinRules

  class SkinRegistry {
    var skinConditions: seq<SkinCondition>
    var isInitialized: bool

    /** Before the first query the list is empty; afterwards it is the full table. */
    ghost predicate Valid()
      reads this
    {
      skinConditions == if isInitialized then Table() else []
    }

    /** The static initialisers: an empty list, not yet initialised. */
    constructor ()
      ensures Valid() && !isInitialized && skinConditions == []
    {
      skinConditions := [];
      isInitialized := false;
    }

    /** `AddElements`: registers a rule for a list of names. */
    method AddElements(elements: seq<string>, useCondition: Option<Gate>)
      modifies this
      ensures skinConditions == old(skinConditions) + [SkinCondition(elements, useCondition)]
      ensures isInitialized == old(isInitialized)
    {
      skinConditions := skinConditions + [SkinCondition(elements, useCondition)];
    }

    /** `AddElement`: registers a rule for a single name. */
    method AddElement(element: string, useCondition: Option<Gate>)
      modifies this
      ensures skinConditions == old(skinConditions) + [SkinCondition([element], useCondition)]
      ensures isInitialized == old(isInitialized)
    {
      skinConditions := skinConditions + [SkinCondition([element], useCondition)];
    }

    /** `AddStillFrame`: registers the still frame when some rule lists its animated version. The name must
        contain a '.', where the animated version's placeholder is inserted. */
    method AddStillFrame(stillFrame: string)
      requires '.' in stillFrame
      modifies this
      ensures skinConditions == old(skinConditions) + StillFrameRule(old(skinConditions), stillFrame)
      ensures isInitialized == old(isInitialized)
    {
      var animatedVersion := AnimatedVersion(stillFrame);
      if Any(skinConditions, (condition: SkinCondition) => animatedVersion in condition.elementNames) {
        AddElement(stillFrame, Some(NoFrameOf(animatedVersion)));
      }
    }

    /** `Initialize`: registers the categories, then walks a snapshot of them and adds a still frame for
        every animated name; the flag is set last. */
    method Initialize()
      requires Valid() && !isInitialized
      modifies this
      ensures Valid() && isInitialized
    {
      AddCategories();
      assert skinConditions == Categories;
      CategoriesHaveDot();
      AddStillFrames();
      assert skinConditions == Table();
      isInitialized := true;
    }

    /** The registrations that open `Initialize`, in the source's order. */
    method AddCategories()
      requires skinConditions == []
      modifies this
      ensures skinConditions == Categories
      ensures isInitialized == old(isInitialized)
    {
      AddElements(SkinGeneral, None);
      assert skinConditions == [SkinCondition(SkinGeneral, None)];
      AddElements(SkinStandard, Some(AnyMode({Standard})));
      AddElements(SkinCatch, Some(AnyMode({Catch, Standard})));
      AddElements(SkinMania, Some(AnyMode({Mania, Standard})));
      AddElements(SkinNotMania, Some(AnyNotMania));
      AddElements(SkinCountdown, Some(AnyCountdown));
      AddElements(SkinStandardSlider, Some(AnySlider));
      AddElement("reversearrow.png", Some(AnyMultiEdgeSlider));
      AddElements(SkinStandardSpinner, Some(AnySpinner));
      AddElements(SkinBreak, Some(AnyBreak));
      AddElements(SkinNotSliderb, Some(NoPath("sliderb.png")));
      AddElement("particle50.png", Some(HasPath("hit50.png")));
      AddElement("particle100.png", Some(HasPath("hit100.png")));
      AddElement("particle300.png", Some(HasPath("hit300.png")));
    }

    /** The loop that ends `Initialize`: for every name of every rule in a snapshot of the list, in order,
        a name holding `-{n}` has its still frame added. */
    method AddStillFrames()
      requires NamesHaveDot(skinConditions)
      modifies this
      ensures AllHaveDot(Flatten(old(skinConditions)))
      ensures skinConditions == Derive(old(skinConditions), Flatten(old(skinConditions)))
      ensures isInitialized == old(isInitialized)
    {
      var snapshot := skinConditions;
      var i := 0;
      while i < |snapshot|
        invariant 0 <= i <= |snapshot| && isInitialized == old(isInitialized)
        invariant AllHaveDot(Flatten(snapshot[..i]))
        invariant skinConditions == Derive(snapshot, Flatten(snapshot[..i]))
      {
        AddRuleStillFrames(snapshot, i);
        FlattenSnoc(snapshot, i);
        i := i + 1;
      }
      assert snapshot[..i] == snapshot;
    }

    /** The inner loop of `Initialize`: the names of the snapshot's rule `i`, in order. */
    method AddRuleStillFrames(snapshot: seq<SkinCondition>, i: nat)
      requires i < |snapshot| && NamesHaveDot(snapshot) && AllHaveDot(Flatten(snapshot[..i]))
      requires skinConditions == Derive(snapshot, Flatten(snapshot[..i]))
      modifies this
      ensures AllHaveDot(Flatten(snapshot[..i]) + snapshot[i].elementNames)
      ensures skinConditions == Derive(snapshot, Flatten(snapshot[..i]) + snapshot[i].elementNames)
      ensures isInitialized == old(isInitialized)
    {
      var names := snapshot[i].elementNames;
      assert AllHaveDot(names);
      ghost var done := Flatten(snapshot[..i]);
      ghost var visited := done;
      var j := 0;
      VisitedStep(done, names, 0);
      while j < |names|
        invariant 0 <= j <= |names| && isInitialized == old(isInitialized)
        invariant visited == done + names[..j]
        invariant AllHaveDot(visited) && skinConditions == Derive(snapshot, visited)
      {
        AddNameStillFrame(snapshot, visited, names[j]);
        visited := visited + [names[j]];
        VisitedStep(done, names, j + 1);
        j := j + 1;
      }
      VisitedStep(done, names, j);
    }

    /** One visited name: its still frame is added when it holds `-{n}`. */
    method AddNameStillFrame(ghost snapshot: seq<SkinCondition>, ghost visited: seq<string>, elementName: string)
      requires AllHaveDot(visited) && '.' in elementName
      requires skinConditions == Derive(snapshot, visited)
      modifies this
      ensures AllHaveDot(visited + [elementName])
      ensures skinConditions == Derive(snapshot, visited + [elementName])
      ensures isInitialized == old(isInitialized)
    {
      DeriveSnoc(snapshot, visited, elementName);
      if Contains(elementName, "-{n}") {
        StillFrameKeepsDot(elementName);
        AddStillFrame(Replace(elementName, "-{n}", ""));
      }
    }

    /** `GetSkinCondition`: the first rule, in registration order, one of whose names matches; `None` when
        no rule matches. */
    method GetSkinCondition(elementName: string) returns (result: Option<SkinCondition>)
      ensures FirstMatch(skinConditions, elementName).None? ==> result.None?
      ensures FirstMatch(skinConditions, elementName).Some? ==>
                result == Some(skinConditions[FirstMatch(skinConditions, elementName).value])
    {
      var conditions := skinConditions;
      var i := 0;
      while i < |conditions|
        invariant 0 <= i <= |conditions|
        invariant forall k :: 0 <= k < i ==> !ConditionMatches(conditions[k], elementName)
      {
        var matches := MatchesAnyName(conditions[i].elementNames, elementName);
        if matches {
          FirstMatchIs(conditions, elementName, i);
          return Some(conditions[i]);
        }
        i := i + 1;
      }
      return None;
    }

    /** The inner loop of `GetSkinCondition`: whether one of a rule's names matches, comparing them in
        order and stopping at the first that does. */
    static method MatchesAnyName(names: seq<string>, elementName: string) returns (matches: bool)
      ensures matches <==> AnyNameMatches(names, elementName)
    {
      var j := 0;
      while j < |names|
        invariant 0 <= j <= |names|
        invariant forall m :: 0 <= m < j ==> !NameMatches(names[m], elementName)
      {
        matches := CompareName(names[j], elementName);
        if matches {
          assert NameMatches(names[j], elementName);
          return;
        }
        j := j + 1;
      }
      return false;
    }

    /** The body of the inner loop of `GetSkinCondition`: a case-insensitive comparison, then, for a name
        holding `{n}`, the template comparison with the frame cut from the placeholder's offset to the next
        '.'. */
    static method CompareName(otherElementName: string, elementName: string) returns (matches: bool)
      ensures matches <==> NameMatches(otherElementName, elementName)
    {
      if Lower(otherElementName) == Lower(elementName) {
        return true;
      }
      if Contains(otherElementName, "{n}") {
        var startIndex := IndexOf(otherElementName, "{n}");
        if startIndex != -1 && |elementName| > startIndex && IndexOfChar(elementName, '.', startIndex) != -1 {
          var endIndex := IndexOfChar(elementName, '.', startIndex);
          var frame := elementName[startIndex..endIndex];
          if Lower(Replace(otherElementName, "{n}", frame)) == elementName {
            return true;
          }
        }
      }
      return false;
    }

    /** `IsUsed`: initialises on the first call, then answers from the rule the lookup finds. */
    method IsUsed(elementName: string, beatmapSet: BeatmapSet, cutPath: string -> string) returns (used: bool)
      requires Valid()
      modifies this
      ensures Valid() && isInitialized
      ensures old(isInitialized) ==> skinConditions == old(skinConditions)
      ensures used == Used(Table(), elementName, beatmapSet, cutPath)
    {
      if !isInitialized {
        Initialize();
      }
      var skinCondition := GetSkinCondition(elementName);
      used := skinCondition.Some? &&
              (skinCondition.value.isUsed.None? || Eval(skinCondition.value.isUsed.value, beatmapSet, cutPath));
    }
  }
}
