/** The rule table of statics/SkinStatic.cs as values: the gates, the category lists, the first-match lookup,
    the query, and the still-frame derivation pass that `Initialize` runs. */
module SkinRules {
  import opened Text
  import opened Mapset
  import opened SkinMatching

  datatype Option<T> = None | Some(value: T)

  /** The use conditions the table registers; each stands for one of the source's lambdas. */
  datatype Gate =
    | AnyMode(modes: set<Mode>)     // some beatmap's mode is one of `modes`
    | AnyNotMania                   // some beatmap's mode is not mania
    | AnyCountdown                  // some beatmap has countdown > 0
    | AnySlider                     // some hit object is a slider
    | AnyMultiEdgeSlider            // some slider has edgeAmount > 1
    | AnySpinner                    // some hit object is a spinner
    | AnyBreak                      // some beatmap has a break
    | NoPath(name: string)          // no file path cuts to `name`
    | HasPath(name: string)         // some file path cuts to `name`
    | NoFrameOf(animation: string)  // no file path cuts to an animation frame of `animation`

  /** `SkinCondition`: the element names of a rule and its use condition; `None` is the null predicate. */
  datatype SkinCondition = SkinCondition(elementNames: seq<string>, isUsed: Option<Gate>)

  /** Some beatmap holds a hit object satisfying `p`. */
  function AnyHitObject(beatmaps: seq<Beatmap>, p: HitObject -> bool): (r: bool)
    ensures r <==> exists i, j :: 0 <= i < |beatmaps| && 0 <= j < |beatmaps[i].hitObjects| && p(beatmaps[i].hitObjects[j])
  {
    Any(beatmaps, (b: Beatmap) => Any(b.hitObjects, p))
  }

  /** The gates that look at the beatmaps' settings, hit objects and breaks. */
  function EvalBeatmaps(gate: Gate, beatmaps: seq<Beatmap>): (r: bool)
    requires !gate.NoPath? && !gate.HasPath? && !gate.NoFrameOf?
    ensures gate.AnyMode? ==> (r <==> exists i :: 0 <= i < |beatmaps| && beatmaps[i].mode in gate.modes)
    ensures gate.AnyNotMania? ==> (r <==> exists i :: 0 <= i < |beatmaps| && beatmaps[i].mode != Mania)
    ensures gate.AnyCountdown? ==> (r <==> exists i :: 0 <= i < |beatmaps| && beatmaps[i].countdown > 0)
    ensures gate.AnySlider? ==>
      (r <==> exists i, j :: 0 <= i < |beatmaps| && 0 <= j < |beatmaps[i].hitObjects| && beatmaps[i].hitObjects[j].Slider?)
    ensures gate.AnyMultiEdgeSlider? ==>
      (r <==> exists i, j :: 0 <= i < |beatmaps| && 0 <= j < |beatmaps[i].hitObjects| &&
                             beatmaps[i].hitObjects[j].Slider? && beatmaps[i].hitObjects[j].edgeAmount > 1)
    ensures gate.AnySpinner? ==>
      (r <==> exists i, j :: 0 <= i < |beatmaps| && 0 <= j < |beatmaps[i].hitObjects| && beatmaps[i].hitObjects[j].Spinner?)
    ensures gate.AnyBreak? ==> (r <==> exists i :: 0 <= i < |beatmaps| && beatmaps[i].breaks != [])
  {
    match gate
    case AnyMode(modes) => Any(beatmaps, (b: Beatmap) => b.mode in modes)
    case AnyNotMania => Any(beatmaps, (b: Beatmap) => b.mode != Mania)
    case AnyCountdown => Any(beatmaps, (b: Beatmap) => b.countdown > 0)
    case AnySlider => AnyHitObject(beatmaps, (h: HitObject) => h.Slider?)
    case AnyMultiEdgeSlider => AnyHitObject(beatmaps, (h: HitObject) => h.Slider? && h.edgeAmount > 1)
    case AnySpinner => AnyHitObject(beatmaps, (h: HitObject) => h.Spinner?)
    case AnyBreak => Any(beatmaps, (b: Beatmap) => b.breaks != [])
  }

  /** The gates that look at the file paths of the set; `cutPath` stands for `PathStatic.CutPath`, which is
      not part of this model. */
  function EvalPaths(gate: Gate, songFilePaths: seq<string>, cutPath: string -> string): (r: bool)
    requires gate.NoPath? || gate.HasPath? || gate.NoFrameOf?
    ensures gate.NoPath? ==> (r <==> forall i :: 0 <= i < |songFilePaths| ==> cutPath(songFilePaths[i]) != gate.name)
    ensures gate.HasPath? ==> (r <==> exists i :: 0 <= i < |songFilePaths| && cutPath(songFilePaths[i]) == gate.name)
    ensures gate.NoFrameOf? ==>
      (r <==> forall i :: 0 <= i < |songFilePaths| ==> !IsAnimationFrameOf(cutPath(songFilePaths[i]), gate.animation))
  {
    match gate
    case NoPath(name) => !Any(songFilePaths, (path: string) => cutPath(path) == name)
    case HasPath(name) => Any(songFilePaths, (path: string) => cutPath(path) == name)
    case NoFrameOf(animation) => !Any(songFilePaths, (path: string) => IsAnimationFrameOf(cutPath(path), animation))
  }

  /** Evaluates a gate on a beatmap set: the source's use-condition lambda for that gate. */
  function Eval(gate: Gate, beatmapSet: BeatmapSet, cutPath: string -> string): bool
  {
    if gate.NoPath? || gate.HasPath? || gate.NoFrameOf? then EvalPaths(gate, beatmapSet.songFilePaths, cutPath)
    else EvalBeatmaps(gate, beatmapSet.beatmaps)
  }

  // ---------------------------------------------------------------------------------------------
  // The category lists, in the source's order. The longer lists are written as the concatenation of
  // the groups their comments name; the values and the order are the source's.

  const Cursor: seq<string> := ["cursor.png", "cursormiddle.png", "cursor-smoke.png", "cursortrail.png"]

  const Playfield: seq<string> := ["play-skip-{n}.png", "play-unranked.png", "multi-skipped.png"]

  const PauseScreen: seq<string> := [
    "pause-overlay.png", "pause-overlay.jpg", "fail-background.png", "fail-background.jpg",
    "pause-back.png", "pause-continue.png", "pause-replay.png", "pause-retry.png"]

  const Scorebar: seq<string> := ["scorebar-bg.png", "scorebar-colour.png"]

  const ScoreNumbers: seq<string> := [
    "score-0.png", "score-1.png", "score-2.png", "score-3.png", "score-4.png", "score-5.png", "score-6.png",
    "score-7.png", "score-8.png", "score-9.png", "score-comma.png", "score-dot.png", "score-percent.png",
    "score-x.png"]

  const RankingGrades: seq<string> := [
    "ranking-XH-small.png", "ranking-X-small.png", "ranking-SH-small.png", "ranking-S-small.png",
    "ranking-A-small.png", "ranking-B-small.png", "ranking-C-small.png", "ranking-D-small.png"]

  const ScoreEntry: seq<string> := [
    "scoreentry-0.png", "scoreentry-1.png", "scoreentry-2.png", "scoreentry-3.png", "scoreentry-4.png",
    "scoreentry-5.png", "scoreentry-6.png", "scoreentry-7.png", "scoreentry-8.png", "scoreentry-9.png",
    "scoreentry-comma.png", "scoreentry-dot.png", "scoreentry-percent.png", "scoreentry-x.png"]

  const SongSelection: seq<string> := ["menu-button-background.png", "selection-tab.png", "star2.png"]

  const ModIcons: seq<string> := [
    "selection-mod-autoplay.png", "selection-mod-cinema.png", "selection-mod-doubletime.png",
    "selection-mod-easy.png", "selection-mod-flashlight.png", "selection-mod-halftime.png",
    "selection-mod-hardrock.png", "selection-mod-hidden.png", "selection-mod-nightcore.png",
    "selection-mod-nofail.png", "selection-mod-perfect.png", "selection-mod-suddendeath.png"]

  const GameplaySounds: seq<string> := [
    "applause.wav", "applause.mp3", "applause.ogg",
    "comboburst.wav", "comboburst.mp3", "comboburst.ogg",
    "combobreak.wav", "combobreak.mp3", "combobreak.ogg",
    "failsound.wav", "failsound.mp3", "failsound.ogg"]

  const PauseSounds: seq<string> := ["pause-loop.wav", "pause-loop.mp3", "pause-loop.ogg"]

  const SkinGeneral: seq<string> :=
    Cursor + Playfield + PauseScreen + Scorebar + ScoreNumbers + RankingGrades + ScoreEntry +
    SongSelection + ModIcons + GameplaySounds + PauseSounds

  const HitBursts: seq<string> := [
    "hit0-{n}.png", "hit50-{n}.png", "hit100-{n}.png", "hit100k-{n}.png", "hit300-{n}.png",
    "hit300g-{n}.png", "hit300k-{n}.png"]

  const ModIconExceptions: seq<string> := [
    "selection-mod-relax2.png", "selection-mod-spunout.png", "selection-mod-target.png"]

  const ComboBurst: seq<string> := ["comboburst.png", "comboburst-{n}.png"]

  const DefaultNumbers: seq<string> := [
    "default-0.png", "default-1.png", "default-2.png", "default-3.png", "default-4.png",
    "default-5.png", "default-6.png", "default-7.png", "default-8.png", "default-9.png"]

  const HitCircles: seq<string> := [
    "approachcircle.png", "hitcircle.png", "hitcircleoverlay.png", "hitcircleoverlay-{n}.png",
    "hitcircleselect.png", "followpoint.png", "followpoint-{n}.png", "lighting.png"]

  const SkinStandard: seq<string> := HitBursts + ModIconExceptions + ComboBurst + DefaultNumbers + HitCircles

  const SkinMania: seq<string> := [
    "selection-mod-fadein.png", "selection-mod-key1.png", "selection-mod-key2.png",
    "selection-mod-key3.png", "selection-mod-key4.png", "selection-mod-key5.png",
    "selection-mod-key6.png", "selection-mod-key7.png", "selection-mod-key8.png",
    "selection-mod-key9.png", "selection-mod-keycoop.png", "selection-mod-random.png"]

  const SkinCatch: seq<string> := ["inputoverlay-background.png", "inputoverlay-key.png"]

  const SkinNotMania: seq<string> := [
    "scorebar-marker.png", "scorebar-ki.png", "scorebar-kidanger.png", "scorebar-kidanger2.png",
    "selection-mod-relax.png"]

  const CountdownPlayfield: seq<string> := ["count1.png", "count2.png", "count3.png", "go.png", "ready.png"]

  const CountdownSounds: seq<string> := [
    "count1s.wav", "count1s.mp3", "count1s.ogg",
    "count2s.wav", "count2s.mp3", "count2s.ogg",
    "count3s.wav", "count3s.mp3", "count3s.ogg",
    "gos.wav", "gos.mp3", "gos.ogg",
    "readys.wav", "readys.mp3", "readys.ogg"]

  const SkinCountdown: seq<string> := CountdownPlayfield + CountdownSounds

  const SkinStandardSlider: seq<string> := [
    "sliderstartcircle.png", "sliderstartcircleoverlay.png", "sliderstartcircleoverlay-{n}.png",
    "sliderendcircle.png", "sliderendcircleoverlay.png", "sliderendcircleoverlay-{n}.png",
    "sliderfollowcircle.png", "sliderfollowcircle-{n}.png",
    "sliderb.png", "sliderb{n}.png", "sliderb-nd.png", "sliderb-spec.png",
    "sliderscorepoint.png", "sliderpoint10.png", "sliderpoint30.png"]

  const SpinnerElements: seq<string> := [
    "spinner-approachcircle.png", "spinner-rpm.png", "spinner-clear.png", "spinner-spin.png",
    "spinner-glow.png", "spinner-bottom.png", "spinner-top.png", "spinner-middle2.png",
    "spinner-middle.png"]

  const OldSpinner: seq<string> := ["spinner-background.png", "spinner-circle.png", "spinner-metre.png", "spinner-osu.png"]

  const SpinnerSounds: seq<string> := [
    "spinnerspin.wav", "spinnerspin.mp3", "spinnerspin.ogg",
    "spinnerbonus.wav", "spinnerbonus.mp3", "spinnerbonus.ogg"]

  const SkinStandardSpinner: seq<string> := SpinnerElements + OldSpinner + SpinnerSounds

  const SkinNotSliderb: seq<string> := ["sliderb-nd.png", "sliderb-spec.png"]

  const SkinBreak: seq<string> := [
    "section-fail.png", "section-pass.png",
    "sectionpass.wav", "sectionpass.mp3", "sectionpass.ogg",
    "sectionfail.wav", "sectionfail.mp3", "sectionfail.ogg"]

  /** The rules `Initialize` registers before the derivation pass, one append per registration, in
      registration order. */
  const Categories: seq<SkinCondition> :=
    [SkinCondition(SkinGeneral, None)] +
    [SkinCondition(SkinStandard, Some(AnyMode({Standard})))] +
    [SkinCondition(SkinCatch, Some(AnyMode({Catch, Standard})))] +
    [SkinCondition(SkinMania, Some(AnyMode({Mania, Standard})))] +
    [SkinCondition(SkinNotMania, Some(AnyNotMania))] +
    [SkinCondition(SkinCountdown, Some(AnyCountdown))] +
    [SkinCondition(SkinStandardSlider, Some(AnySlider))] +
    [SkinCondition(["reversearrow.png"], Some(AnyMultiEdgeSlider))] +
    [SkinCondition(SkinStandardSpinner, Some(AnySpinner))] +
    [SkinCondition(SkinBreak, Some(AnyBreak))] +
    [SkinCondition(SkinNotSliderb, Some(NoPath("sliderb.png")))] +
    [SkinCondition(["particle50.png"], Some(HasPath("hit50.png")))] +
    [SkinCondition(["particle100.png"], Some(HasPath("hit100.png")))] +
    [SkinCondition(["particle300.png"], Some(HasPath("hit300.png")))]

  // ---------------------------------------------------------------------------------------------
  // Lookup and query.

  /** Some name of the rule matches the queried element name. */
  predicate ConditionMatches(condition: SkinCondition, elementName: string) {
    AnyNameMatches(condition.elementNames, elementName)
  }

  /** The index of the first rule, in registration order, with a matching name, searching from `from`. */
  function FirstMatchFrom(conditions: seq<SkinCondition>, elementName: string, from: nat): (r: Option<nat>)
    ensures r.Some? ==>
      from <= r.value < |conditions| && ConditionMatches(conditions[r.value], elementName) &&
      forall k :: from <= k < r.value ==> !ConditionMatches(conditions[k], elementName)
    ensures r.None? ==> forall k :: from <= k < |conditions| ==> !ConditionMatches(conditions[k], elementName)
    decreases |conditions| - from
  {
    if from >= |conditions| then None
    else if ConditionMatches(conditions[from], elementName) then Some(from)
    else
      var r := FirstMatchFrom(conditions, elementName, from + 1);
      assert !ConditionMatches(conditions[from], elementName);
      r
  }

  /** The index of the rule `GetSkinCondition` returns: the first, in registration order, with a matching
      name; `None` when no rule matches. */
  function FirstMatch(conditions: seq<SkinCondition>, elementName: string): (r: Option<nat>)
    ensures r.Some? ==>
      r.value < |conditions| && ConditionMatches(conditions[r.value], elementName) &&
      forall k :: 0 <= k < r.value ==> !ConditionMatches(conditions[k], elementName)
    ensures r.None? <==> forall k :: 0 <= k < |conditions| ==> !ConditionMatches(conditions[k], elementName)
  {
    FirstMatchFrom(conditions, elementName, 0)
  }

  /** A rule that matches with no earlier rule matching is the one the lookup returns. */
  lemma FirstMatchIs(conditions: seq<SkinCondition>, elementName: string, i: nat)
    requires i < |conditions| && ConditionMatches(conditions[i], elementName)
    requires forall k :: 0 <= k < i ==> !ConditionMatches(conditions[k], elementName)
    ensures FirstMatch(conditions, elementName) == Some(i)
  {
    var m := FirstMatch(conditions, elementName);
    assert m.Some? && !(m.value < i) && !(i < m.value);
  }

  /** The lookup passes over a rule that does not match. */
  lemma SkipRule(conditions: seq<SkinCondition>, elementName: string, from: nat)
    requires from < |conditions| && !ConditionMatches(conditions[from], elementName)
    ensures FirstMatchFrom(conditions, elementName, from) == FirstMatchFrom(conditions, elementName, from + 1)
  {
  }

  /** The lookup stops at a rule that matches. */
  lemma StopAtRule(conditions: seq<SkinCondition>, elementName: string, from: nat)
    requires from < |conditions| && ConditionMatches(conditions[from], elementName)
    ensures FirstMatchFrom(conditions, elementName, from) == Some(from)
  {
  }

  /** Rules appended after the one the lookup finds do not change its answer. */
  lemma FirstMatchInPrefix(conditions: seq<SkinCondition>, longer: seq<SkinCondition>, elementName: string)
    requires |conditions| <= |longer| && longer[..|conditions|] == conditions
    requires FirstMatch(conditions, elementName).Some?
    ensures FirstMatch(longer, elementName) == FirstMatch(conditions, elementName)
  {
    var i := FirstMatch(conditions, elementName).value;
    assert forall k :: 0 <= k <= i ==> longer[k] == longer[..|conditions|][k];
    FirstMatchIs(longer, elementName, i);
  }

  /** A rule whose every match an earlier rule also matches is never the one the lookup returns. */
  lemma CoveredRuleUnreachable(conditions: seq<SkinCondition>, elementName: string, i: nat, k: nat)
    requires i < k < |conditions|
    requires ConditionMatches(conditions[k], elementName) ==> ConditionMatches(conditions[i], elementName)
    ensures FirstMatch(conditions, elementName) != Some(k)
  {
  }

  /** The rule holds for the set: it has no condition, or its condition holds. A rule with the null
      predicate holds for every set. */
  predicate Holds(condition: SkinCondition, beatmapSet: BeatmapSet, cutPath: string -> string): (r: bool)
    ensures condition.isUsed.None? ==> r
  {
    condition.isUsed.None? || Eval(condition.isUsed.value, beatmapSet, cutPath)
  }

  /** What `IsUsed` answers over a given table: an element no rule recognises is never used, and one whose
      first matching rule has the null predicate always is. */
  function Used(conditions: seq<SkinCondition>, elementName: string, beatmapSet: BeatmapSet,
                cutPath: string -> string): (r: bool)
    ensures r ==> FirstMatch(conditions, elementName).Some?
    ensures FirstMatch(conditions, elementName).Some? ==>
              conditions[FirstMatch(conditions, elementName).value].isUsed.None? ==> r
  {
    match FirstMatch(conditions, elementName)
    case None => false
    case Some(i) => Holds(conditions[i], beatmapSet, cutPath)
  }

  /** Once the lookup's answer is known, the query is that rule's condition. */
  lemma UsedAtFirstMatch(conditions: seq<SkinCondition>, elementName: string, k: nat, beatmapSet: BeatmapSet,
                         cutPath: string -> string)
    requires FirstMatch(conditions, elementName) == Some(k)
    ensures k < |conditions| && (Used(conditions, elementName, beatmapSet, cutPath) <==> Holds(conditions[k], beatmapSet, cutPath))
  {
  }

  /** A query whose first matching rule is a still-frame rule is used exactly when no file of the set cuts
      to a frame of the animated name. */
  lemma UsedAtStillFrame(conditions: seq<SkinCondition>, elementName: string, k: nat, animation: string,
                         beatmapSet: BeatmapSet, cutPath: string -> string)
    requires FirstMatch(conditions, elementName) == Some(k)
    requires k < |conditions| && conditions[k].isUsed == Some(NoFrameOf(animation))
    ensures Used(conditions, elementName, beatmapSet, cutPath) <==>
      forall i :: 0 <= i < |beatmapSet.songFilePaths| ==> !IsAnimationFrameOf(cutPath(beatmapSet.songFilePaths[i]), animation)
  {
  }

  /** An element is used exactly when some rule matches it, no earlier rule does, and that rule holds: an
      unrecognised name is never used, and a later rule never overrides an earlier one. */
  lemma UsedCases(conditions: seq<SkinCondition>, elementName: string, beatmapSet: BeatmapSet,
                  cutPath: string -> string)
    ensures Used(conditions, elementName, beatmapSet, cutPath) <==>
      exists i :: 0 <= i < |conditions| && ConditionMatches(conditions[i], elementName) &&
                  (forall k :: 0 <= k < i ==> !ConditionMatches(conditions[k], elementName)) &&
                  Holds(conditions[i], beatmapSet, cutPath)
  {
    forall i | 0 <= i < |conditions| && ConditionMatches(conditions[i], elementName) &&
               (forall k :: 0 <= k < i ==> !ConditionMatches(conditions[k], elementName))
      ensures FirstMatch(conditions, elementName) == Some(i)
    {
      FirstMatchIs(conditions, elementName, i);
    }
  }

  // ---------------------------------------------------------------------------------------------
  // The derivation pass.

  /** Every name in the list contains a '.'. */
  predicate AllHaveDot(names: seq<string>) {
    forall j :: 0 <= j < |names| ==> '.' in names[j]
  }

  /** Every name the rules register contains a '.'. */
  predicate NamesHaveDot(conditions: seq<SkinCondition>) {
    forall i :: 0 <= i < |conditions| ==> AllHaveDot(conditions[i].elementNames)
  }

  /** The animated name `AddStillFrame` reconstructs: `-{n}` inserted before the first '.'. */
  function AnimatedVersion(stillFrame: string): (r: string)
    requires '.' in stillFrame
    ensures exists k :: 0 <= k < |stillFrame| && stillFrame[k] == '.' && r == stillFrame[..k] + "-{n}" + stillFrame[k..] &&
                        '.' !in stillFrame[..k]
  {
    var k :| 0 <= k < |stillFrame| && stillFrame[k] == '.';
    OccursAtChar(stillFrame, '.', k);
    var dot := IndexOf(stillFrame, ".");
    forall i | 0 <= i < dot ensures stillFrame[i] != '.' {
      OccursAtChar(stillFrame, '.', i);
    }
    OccursAtChar(stillFrame, '.', dot);
    Insert(stillFrame, dot, "-{n}")
  }

  /** What `AddStillFrame(stillFrame)` appends to `current`: a rule for the still frame, gated on no file
      being a frame of the animated name, when some rule already lists that animated name. */
  function StillFrameRule(current: seq<SkinCondition>, stillFrame: string): (r: seq<SkinCondition>)
    requires '.' in stillFrame
    ensures |r| <= 1
    ensures r != [] <==> exists i :: 0 <= i < |current| && AnimatedVersion(stillFrame) in current[i].elementNames
    ensures r != [] ==> r[0] == SkinCondition([stillFrame], Some(NoFrameOf(AnimatedVersion(stillFrame))))
  {
    var animatedVersion := AnimatedVersion(stillFrame);
    if exists i :: 0 <= i < |current| && animatedVersion in current[i].elementNames then
      [SkinCondition([stillFrame], Some(NoFrameOf(animatedVersion)))]
    else []
  }

  /** Removing `-{n}` keeps the '.' of a name. */
  lemma StillFrameKeepsDot(elementName: string)
    requires '.' in elementName
    ensures '.' in Replace(elementName, "-{n}", "")
  {
    ReplaceKeepsChar(elementName, "-{n}", "", '.');
  }

  /** What the derivation loop appends for one registered name: nothing for a name without `-{n}`, and
      otherwise at most the still-frame rule of the name with `-{n}` removed. */
  function StillFrameStep(current: seq<SkinCondition>, elementName: string): (r: seq<SkinCondition>)
    requires '.' in elementName
    ensures |r| <= 1
    ensures !Contains(elementName, "-{n}") ==> r == []
    ensures r != [] ==> r[0].elementNames == [Replace(elementName, "-{n}", "")] &&
                        r[0].isUsed.Some? && r[0].isUsed.value.NoFrameOf?
  {
    if Contains(elementName, "-{n}") then
      StillFrameKeepsDot(elementName);
      StillFrameRule(current, Replace(elementName, "-{n}", ""))
    else []
  }

  /** The names of the rules, in registration order. */
  function Flatten(conditions: seq<SkinCondition>): seq<string>
  {
    if conditions == [] then [] else Flatten(conditions[..|conditions| - 1]) + conditions[|conditions| - 1].elementNames
  }

  /** The flattened list holds exactly the names of the rules. */
  lemma {:induction false} FlattenContains(conditions: seq<SkinCondition>, w: string)
    ensures w in Flatten(conditions) <==> exists i :: 0 <= i < |conditions| && w in conditions[i].elementNames
  {
    if conditions != [] {
      var init := conditions[..|conditions| - 1];
      FlattenContains(init, w);
      assert forall i :: 0 <= i < |init| ==> init[i] == conditions[i];
      assert conditions == init + [conditions[|conditions| - 1]];
    }
  }

  /** The names of the rules split where the rules do. */
  lemma {:induction false} FlattenSplit(conditions: seq<SkinCondition>, i: nat)
    requires i <= |conditions|
    ensures Flatten(conditions) == Flatten(conditions[..i]) + Flatten(conditions[i..])
    decreases |conditions|
  {
    if i < |conditions| {
      var init := conditions[..|conditions| - 1];
      var last := conditions[|conditions| - 1];
      FlattenSplit(init, i);
      assert init[..i] == conditions[..i];
      var tail := conditions[i..];
      assert tail[..|tail| - 1] == init[i..] && tail[|tail| - 1] == last;
    } else {
      assert conditions[..i] == conditions && conditions[i..] == [];
    }
  }

  lemma {:induction false} FlattenHasDot(conditions: seq<SkinCondition>)
    requires NamesHaveDot(conditions)
    ensures AllHaveDot(Flatten(conditions))
  {
    if conditions != [] {
      var init := conditions[..|conditions| - 1];
      FlattenHasDot(init);
      AllHaveDotAppend(Flatten(init), conditions[|conditions| - 1].elementNames);
    }
  }

  /** The table after the derivation loop has visited `names` (in order), starting from `snapshot`. */
  function Derive(snapshot: seq<SkinCondition>, names: seq<string>): (r: seq<SkinCondition>)
    requires AllHaveDot(names)
    ensures |snapshot| <= |r| && r[..|snapshot|] == snapshot
  {
    if names == [] then snapshot
    else
      var prev := Derive(snapshot, names[..|names| - 1]);
      var r := prev + StillFrameStep(prev, names[|names| - 1]);
      assert r[..|snapshot|] == prev[..|snapshot|];
      r
  }

  lemma AllHaveDotAppend(a: seq<string>, b: seq<string>)
    requires AllHaveDot(a) && AllHaveDot(b)
    ensures AllHaveDot(a + b)
  {
    forall j | 0 <= j < |a + b| ensures '.' in (a + b)[j] {
      if j >= |a| { assert (a + b)[j] == b[j - |a|]; }
    }
  }

  lemma AllHaveDotSplit(a: seq<string>, elementName: string, b: seq<string>)
    requires AllHaveDot(a + [elementName] + b)
    ensures AllHaveDot(a) && '.' in elementName && AllHaveDot(b)
  {
    var all := a + [elementName] + b;
    assert forall j :: 0 <= j < |a| ==> a[j] == all[j];
    assert all[|a|] == elementName;
    assert forall j :: 0 <= j < |b| ==> b[j] == all[|a| + 1 + j];
  }

  /** One more visited name: the derivation extends by that name's step. */
  lemma DeriveSnoc(snapshot: seq<SkinCondition>, names: seq<string>, elementName: string)
    requires AllHaveDot(names) && '.' in elementName
    ensures AllHaveDot(names + [elementName])
    ensures Derive(snapshot, names + [elementName]) ==
            Derive(snapshot, names) + StillFrameStep(Derive(snapshot, names), elementName)
  {
    var visited := names + [elementName];
    assert visited[..|visited| - 1] == names;
  }

  /** The names visited so far, as the inner loop of `Initialize` extends them. */
  lemma VisitedStep(done: seq<string>, names: seq<string>, j: nat)
    requires j <= |names|
    ensures j == 0 ==> done + names[..j] == done
    ensures 0 < j ==> done + names[..j] == (done + names[..j - 1]) + [names[j - 1]]
    ensures j == |names| ==> done + names[..j] == done + names
  {
    if 0 < j {
      assert names[..j] == names[..j - 1] + [names[j - 1]];
    }
    assert names[..|names|] == names;
  }

  /** One more rule: its names follow those of the rules before it. */
  lemma FlattenSnoc(conditions: seq<SkinCondition>, i: nat)
    requires i < |conditions|
    ensures Flatten(conditions[..i + 1]) == Flatten(conditions[..i]) + conditions[i].elementNames
  {
    assert conditions[..i + 1][..i] == conditions[..i];
  }

  /** The names of the first two rules come first, in order. */
  lemma FlattenFirstTwo(conditions: seq<SkinCondition>)
    requires 2 <= |conditions|
    ensures Flatten(conditions) == conditions[0].elementNames + conditions[1].elementNames + Flatten(conditions[2..])
  {
    FlattenSplit(conditions, 2);
    var first := conditions[..1];
    assert first[..0] == [];
    assert Flatten(first) == conditions[0].elementNames;
    FlattenSnoc(conditions, 1);
  }

  lemma CursorHasDot() ensures AllHaveDot(Cursor) {}
  lemma PlayfieldHasDot() ensures AllHaveDot(Playfield) {}
  lemma PauseScreenHasDot() ensures AllHaveDot(PauseScreen) {}
  lemma ScorebarHasDot() ensures AllHaveDot(Scorebar) {}
  lemma ScoreNumbersHasDot() ensures AllHaveDot(ScoreNumbers) {}
  lemma RankingGradesHasDot() ensures AllHaveDot(RankingGrades) {}
  lemma ScoreEntryHasDot() ensures AllHaveDot(ScoreEntry) {}
  lemma SongSelectionHasDot() ensures AllHaveDot(SongSelection) {}
  lemma ModIconsHasDot() ensures AllHaveDot(ModIcons) {}
  lemma GameplaySoundsHasDot() ensures AllHaveDot(GameplaySounds) {}
  lemma PauseSoundsHasDot() ensures AllHaveDot(PauseSounds) {}
  lemma HitBurstsHasDot() ensures AllHaveDot(HitBursts) {}
  lemma ModIconExceptionsHasDot() ensures AllHaveDot(ModIconExceptions) {}
  lemma ComboBurstHasDot() ensures AllHaveDot(ComboBurst) {}
  lemma DefaultNumbersHasDot() ensures AllHaveDot(DefaultNumbers) {}
  lemma HitCirclesHasDot() ensures AllHaveDot(HitCircles) {}
  lemma SkinManiaHasDot() ensures AllHaveDot(SkinMania) {}
  lemma SkinCatchHasDot() ensures AllHaveDot(SkinCatch) {}
  lemma SkinNotManiaHasDot() ensures AllHaveDot(SkinNotMania) {}
  lemma CountdownPlayfieldHasDot() ensures AllHaveDot(CountdownPlayfield) {}
  lemma CountdownSoundsHasDot() ensures AllHaveDot(CountdownSounds) {}
  lemma SkinStandardSliderHasDot() ensures AllHaveDot(SkinStandardSlider) {}
  lemma SpinnerElementsHasDot() ensures AllHaveDot(SpinnerElements) {}
  lemma OldSpinnerHasDot() ensures AllHaveDot(OldSpinner) {}
  lemma SpinnerSoundsHasDot() ensures AllHaveDot(SpinnerSounds) {}
  lemma SkinNotSliderbHasDot() ensures AllHaveDot(SkinNotSliderb) {}
  lemma SkinBreakHasDot() ensures AllHaveDot(SkinBreak) {}

  lemma SkinGeneralHasDot()
    ensures AllHaveDot(SkinGeneral)
  {
    CursorHasDot();
    PlayfieldHasDot();
    PauseScreenHasDot();
    ScorebarHasDot();
    ScoreNumbersHasDot();
    RankingGradesHasDot();
    ScoreEntryHasDot();
    SongSelectionHasDot();
    ModIconsHasDot();
    GameplaySoundsHasDot();
    PauseSoundsHasDot();
    AllHaveDotAppend(Cursor, Playfield);
    AllHaveDotAppend(Cursor + Playfield, PauseScreen);
    AllHaveDotAppend(Cursor + Playfield + PauseScreen, Scorebar);
    AllHaveDotAppend(Cursor + Playfield + PauseScreen + Scorebar, ScoreNumbers);
    AllHaveDotAppend(Cursor + Playfield + PauseScreen + Scorebar + ScoreNumbers, RankingGrades);
    AllHaveDotAppend(Cursor + Playfield + PauseScreen + Scorebar + ScoreNumbers + RankingGrades, ScoreEntry);
    AllHaveDotAppend(Cursor + Playfield + PauseScreen + Scorebar + ScoreNumbers + RankingGrades + ScoreEntry, SongSelection);
    AllHaveDotAppend(Cursor + Playfield + PauseScreen + Scorebar + ScoreNumbers + RankingGrades + ScoreEntry + SongSelection, ModIcons);
    AllHaveDotAppend(Cursor + Playfield + PauseScreen + Scorebar + ScoreNumbers + RankingGrades + ScoreEntry + SongSelection + ModIcons, GameplaySounds);
    AllHaveDotAppend(Cursor + Playfield + PauseScreen + Scorebar + ScoreNumbers + RankingGrades + ScoreEntry + SongSelection + ModIcons + GameplaySounds, PauseSounds);
  }

  lemma SkinStandardHasDot()
    ensures AllHaveDot(SkinStandard)
  {
    HitBurstsHasDot();
    ModIconExceptionsHasDot();
    ComboBurstHasDot();
    DefaultNumbersHasDot();
    HitCirclesHasDot();
    AllHaveDotAppend(HitBursts, ModIconExceptions);
    AllHaveDotAppend(HitBursts + ModIconExceptions, ComboBurst);
    AllHaveDotAppend(HitBursts + ModIconExceptions + ComboBurst, DefaultNumbers);
    AllHaveDotAppend(HitBursts + ModIconExceptions + ComboBurst + DefaultNumbers, HitCircles);
  }

  lemma SkinCountdownHasDot()
    ensures AllHaveDot(SkinCountdown)
  {
    CountdownPlayfieldHasDot();
    CountdownSoundsHasDot();
    AllHaveDotAppend(CountdownPlayfield, CountdownSounds);
  }

  lemma SkinStandardSpinnerHasDot()
    ensures AllHaveDot(SkinStandardSpinner)
  {
    SpinnerElementsHasDot();
    OldSpinnerHasDot();
    SpinnerSoundsHasDot();
    AllHaveDotAppend(SpinnerElements, OldSpinner);
    AllHaveDotAppend(SpinnerElements + OldSpinner, SpinnerSounds);
  }

  lemma CategoriesHaveDot()
    ensures NamesHaveDot(Categories)
  {
    SkinGeneralHasDot();
    SkinStandardHasDot();
    SkinManiaHasDot();
    SkinCatchHasDot();
    SkinNotManiaHasDot();
    SkinCountdownHasDot();
    SkinStandardSliderHasDot();
    SkinStandardSpinnerHasDot();
    SkinNotSliderbHasDot();
    SkinBreakHasDot();
    forall i | 0 <= i < |Categories| ensures AllHaveDot(Categories[i].elementNames) {
    }
  }

  /** The table `Initialize` builds: the categories, then the derived still-frame rules. */
  function Table(): (r: seq<SkinCondition>)
    ensures |Categories| <= |r| && r[..|Categories|] == Categories
  {
    CategoriesHaveDot();
    FlattenHasDot(Categories);
    Derive(Categories, Flatten(Categories))
  }

  /** For a name `a + b` whose first '.' starts `b`, the animated version is `a + "-{n}" + b`. */
  lemma AnimatedVersionOf(a: string, b: string)
    requires '.' !in a && b != [] && b[0] == '.'
    ensures '.' in a + b && AnimatedVersion(a + b) == a + "-{n}" + b
  {
    var s := a + b;
    assert s[|a|] == '.';
    var r := AnimatedVersion(s);
    var k :| 0 <= k < |s| && s[k] == '.' && r == s[..k] + "-{n}" + s[k..] && '.' !in s[..k];
    FirstDotAfter(a, b, k);
    assert s[..|a|] == a && s[|a|..] == b;
  }

  /** In `a + b` with '.' absent from `a` and first in `b`, the first '.' stands at `|a|`. */
  lemma FirstDotAfter(a: string, b: string, k: nat)
    requires '.' !in a && b != [] && b[0] == '.'
    requires k < |a + b| && (a + b)[k] == '.' && '.' !in (a + b)[..k]
    ensures k == |a|
  {
    var s := a + b;
    assert forall i :: 0 <= i < |a| ==> s[i] == a[i];
    assert forall i :: 0 <= i < k ==> s[i] == s[..k][i];
    assert s[|a|] == b[0];
  }

  /** A rule the derivation pass adds: one still-frame name, gated only on no file being a frame of its
      animated version. */
  predicate IsStillFrameRule(condition: SkinCondition) {
    |condition.elementNames| == 1 && '.' in condition.elementNames[0] &&
    condition.isUsed == Some(NoFrameOf(AnimatedVersion(condition.elementNames[0])))
  }

  /** Rule `k` of `r` is a still-frame rule whose animated version an earlier rule of `r` lists. */
  predicate DerivedRuleAt(r: seq<SkinCondition>, k: nat) {
    k < |r| && IsStillFrameRule(r[k]) &&
    exists i :: 0 <= i < k && AnimatedVersion(r[k].elementNames[0]) in r[i].elementNames
  }

  /** Every rule the derivation pass adds is a still-frame rule whose animated version some earlier rule
      lists. The gate of that earlier rule plays no part in it. */
  lemma {:induction false} DeriveShape(snapshot: seq<SkinCondition>, names: seq<string>)
    requires AllHaveDot(names)
    ensures forall k :: |snapshot| <= k < |Derive(snapshot, names)| ==> DerivedRuleAt(Derive(snapshot, names), k)
  {
    if names != [] {
      var init := names[..|names| - 1];
      var last := names[|names| - 1];
      var prev := Derive(snapshot, init);
      var r := Derive(snapshot, names);
      assert r == prev + StillFrameStep(prev, last);
      assert r[..|prev|] == prev;
      DeriveShape(snapshot, init);
      StillFrameStepShape(prev, last);
      forall k | |snapshot| <= k < |r| ensures DerivedRuleAt(r, k) {
        if k < |prev| {
          DerivedRuleExtends(prev, r, k);
        }
      }
    }
  }

  /** A derived rule stays one when the list grows at the end. */
  lemma DerivedRuleExtends(prev: seq<SkinCondition>, r: seq<SkinCondition>, k: nat)
    requires |prev| <= |r| && r[..|prev|] == prev && DerivedRuleAt(prev, k)
    ensures DerivedRuleAt(r, k)
  {
    var i :| 0 <= i < k && AnimatedVersion(prev[k].elementNames[0]) in prev[i].elementNames;
    assert r[k] == r[..|prev|][k] && r[i] == r[..|prev|][i];
  }

  /** The rule one derivation step appends, if any, is a derived rule. */
  lemma StillFrameStepShape(prev: seq<SkinCondition>, elementName: string)
    requires '.' in elementName
    ensures forall k :: |prev| <= k < |prev + StillFrameStep(prev, elementName)| ==>
      DerivedRuleAt(prev + StillFrameStep(prev, elementName), k)
  {
    var step := StillFrameStep(prev, elementName);
    var r := prev + step;
    if step != [] {
      StillFrameKeepsDot(elementName);
      var stillFrame := Replace(elementName, "-{n}", "");
      assert step == StillFrameRule(prev, stillFrame);
      var i :| 0 <= i < |prev| && AnimatedVersion(stillFrame) in prev[i].elementNames;
      assert r[|prev|] == step[0] && r[i] == prev[i];
      assert DerivedRuleAt(r, |prev|);
    }
  }

  /** The derivation pass adds the still frame `a + b` of every listed animated name `a + "-{n}" + b`
      (brace-free, with its first '.' after the placeholder) that the snapshot registers. */
  lemma {:induction false} DeriveHasStillFrame(snapshot: seq<SkinCondition>, names: seq<string>, a: string, b: string)
    requires AllHaveDot(names)
    requires '{' !in a && '{' !in b && '.' !in a && b != [] && b[0] == '.'
    requires a + "-{n}" + b in names
    requires exists i :: 0 <= i < |snapshot| && a + "-{n}" + b in snapshot[i].elementNames
    ensures SkinCondition([a + b], Some(NoFrameOf(a + "-{n}" + b))) in Derive(snapshot, names)
  {
    DotSnoc(names);
    var init := names[..|names| - 1];
    var last := names[|names| - 1];
    var prev := Derive(snapshot, init);
    assert Derive(snapshot, names) == prev + StillFrameStep(prev, last);
    if last == a + "-{n}" + b {
      DashPlaceholderSplit(a, b);
      AnimatedVersionOf(a, b);
      var i :| 0 <= i < |snapshot| && a + "-{n}" + b in snapshot[i].elementNames;
      assert prev[..|snapshot|][i] == prev[i];
      assert StillFrameStep(prev, last) == [SkinCondition([a + b], Some(NoFrameOf(a + "-{n}" + b)))];
    } else {
      assert a + "-{n}" + b in init;
      DeriveHasStillFrame(snapshot, init, a, b);
    }
  }

  /** A name without `-{n}`, such as the template `sliderb{n}.png`, gets no still frame. */
  lemma NoDashNoStillFrame(current: seq<SkinCondition>, elementName: string)
    requires '.' in elementName && '-' !in elementName
    ensures StillFrameStep(current, elementName) == []
  {
    NoCharNoOccurrence(elementName, "-{n}", 0, '-');
  }

  // ---------------------------------------------------------------------------------------------
  // Queries that reach a derived rule.

  /** The still-frame rule a registered name would give, if any, matches the queried element name. */
  predicate StillMatches(elementName: string, query: string) {
    Contains(elementName, "-{n}") && NameMatches(Replace(elementName, "-{n}", ""), query)
  }

  /** No name of the list gives a still-frame rule that matches the queried element name. */
  predicate StillsMiss(names: seq<string>, query: string) {
    forall j :: 0 <= j < |names| ==> !StillMatches(names[j], query)
  }

  lemma StillsMissAppend(a: seq<string>, b: seq<string>, query: string)
    requires StillsMiss(a, query) && StillsMiss(b, query)
    ensures StillsMiss(a + b, query)
  {
    forall j | 0 <= j < |a + b| ensures !StillMatches((a + b)[j], query) {
      if j >= |a| { assert (a + b)[j] == b[j - |a|]; }
    }
  }

  /** A name without a brace among its first `q + 2` characters keeps them when `-{n}` is removed, so its
      still frame misses every query that differs from it, in a lower-case character, at `q`. */
  lemma StillMissesAt(elementName: string, query: string, q: nat)
    requires q + 2 <= |elementName| && q < |query|
    requires forall i :: 0 <= i < q + 2 ==> elementName[i] != '{'
    requires !IsUpper(elementName[q]) && !IsUpper(query[q]) && elementName[q] != query[q]
    ensures !StillMatches(elementName, query)
  {
    if Contains(elementName, "-{n}") {
      forall i | 0 <= i < q + 1 ensures !OccursAt(elementName, "-{n}", i) {
        if i + 4 <= |elementName| {
          assert elementName[i..i + 4][1] == elementName[i + 1] != '{';
        }
      }
      ReplaceKeepsPrefix(elementName, "-{n}", "", q + 1);
      var s := Replace(elementName, "-{n}", "");
      assert forall i :: 0 <= i < q + 1 ==> s[..q + 1][i] == s[i] == elementName[..q + 1][i] == elementName[i];
      MatchAgreesAt(s, query, q);
    }
  }

  /** A list of names none of whose still frames matches a query that differs from each of them, in a
      lower-case character, at position `q`, before any brace. */
  lemma StillsMissAt(names: seq<string>, query: string, q: nat)
    requires q < |query| && !IsUpper(query[q])
    requires forall j :: 0 <= j < |names| ==>
      q + 2 <= |names[j]| && (forall i :: 0 <= i < q + 2 ==> names[j][i] != '{') &&
      !IsUpper(names[j][q]) && names[j][q] != query[q]
    ensures StillsMiss(names, query)
  {
    forall j | 0 <= j < |names| ensures !StillMatches(names[j], query) {
      StillMissesAt(names[j], query, q);
    }
  }

  /** A list of names none of whose still frames matches a query whose first character none of them
      shares. */
  lemma StillsMissByFirst(names: seq<string>, query: string)
    requires Plain3(query)
    requires forall j :: 0 <= j < |names| ==> Plain3(names[j]) && names[j][0] != query[0]
    ensures StillsMiss(names, query)
  {
    forall j | 0 <= j < |names| ensures !StillMatches(names[j], query) {
      StillMissesAt(names[j], query, 0);
    }
  }

  /** The rules one derivation step appends for a name whose still frame misses the query miss it too. */
  lemma StepMisses(prev: seq<SkinCondition>, elementName: string, query: string)
    requires '.' in elementName && !StillMatches(elementName, query)
    ensures forall k :: |prev| <= k < |prev + StillFrameStep(prev, elementName)| ==>
      !ConditionMatches((prev + StillFrameStep(prev, elementName))[k], query)
  {
    var step := StillFrameStep(prev, elementName);
    if step != [] {
      assert (prev + step)[|prev|] == step[0];
    }
  }

  /** Visiting names whose still frames miss the query adds only rules that miss it. */
  lemma {:induction false} DeriveMisses(snapshot: seq<SkinCondition>, names: seq<string>, query: string)
    requires AllHaveDot(names) && StillsMiss(names, query)
    ensures forall k :: |snapshot| <= k < |Derive(snapshot, names)| ==> !ConditionMatches(Derive(snapshot, names)[k], query)
  {
    if names != [] {
      var init := names[..|names| - 1];
      var last := names[|names| - 1];
      var prev := Derive(snapshot, init);
      var r := Derive(snapshot, names);
      assert r == prev + StillFrameStep(prev, last);
      DeriveMisses(snapshot, init, query);
      StepMisses(prev, last, query);
      forall k | |snapshot| <= k < |prev| ensures r[k] == prev[k] {
        assert r[k] == r[..|prev|][k];
      }
    }
  }

  lemma AppendSnoc(a: seq<string>, b: seq<string>, last: string)
    ensures a + (b + [last]) == (a + b) + [last]
  {
  }

  /** Visiting more names only appends to the table. */
  lemma {:induction false} DerivePrefix(snapshot: seq<SkinCondition>, a: seq<string>, b: seq<string>)
    requires AllHaveDot(a) && AllHaveDot(b)
    ensures AllHaveDot(a + b)
    ensures |Derive(snapshot, a)| <= |Derive(snapshot, a + b)| &&
            Derive(snapshot, a + b)[..|Derive(snapshot, a)|] == Derive(snapshot, a)
  {
    AllHaveDotAppend(a, b);
    if b == [] {
      assert a + b == a;
    } else {
      var init := b[..|b| - 1];
      var last := b[|b| - 1];
      DotSnoc(b);
      DerivePrefix(snapshot, a, init);
      AppendSnoc(a, init, last);
      AllHaveDotAppend(a, init);
      DeriveSnoc(snapshot, a + init, last);
      var di := Derive(snapshot, a + init);
      PrefixExtend(Derive(snapshot, a), di, StillFrameStep(di, last));
    }
  }

  /** A nonempty list is its front followed by its last name, and both keep the dots. */
  lemma DotSnoc(b: seq<string>)
    requires AllHaveDot(b) && b != []
    ensures b == b[..|b| - 1] + [b[|b| - 1]]
    ensures AllHaveDot(b[..|b| - 1]) && '.' in b[|b| - 1]
  {
  }

  /** A prefix of a table stays a prefix when rules are appended. */
  lemma PrefixExtend(p: seq<SkinCondition>, q: seq<SkinCondition>, s: seq<SkinCondition>)
    requires |p| <= |q| && q[..|p|] == p
    ensures |p| <= |q + s| && (q + s)[..|p|] == p
  {
    assert (q + s)[..|p|] == q[..|p|];
  }

  /** A query that no registration matches and that no still frame of the names before `elementName`
      matches, but that the still frame of `elementName` does match, resolves to that still-frame rule,
      wherever the table goes on from there. */
  lemma DeriveReachesStill(snapshot: seq<SkinCondition>, before: seq<string>, elementName: string,
                           after: seq<string>, query: string)
    requires AllHaveDot(before + [elementName] + after)
    requires FirstMatch(snapshot, query) == None
    requires StillsMiss(before, query) && StillMatches(elementName, query)
    ensures AllHaveDot(before) && '.' in elementName
    ensures StillFrameStep(Derive(snapshot, before), elementName) != [] ==>
      var r := Derive(snapshot, before + [elementName] + after);
      FirstMatch(r, query) == Some(|Derive(snapshot, before)|) &&
      r[|Derive(snapshot, before)|] == StillFrameStep(Derive(snapshot, before), elementName)[0]
  {
    assert forall i :: 0 <= i < |snapshot| ==> !ConditionMatches(snapshot[i], query);
    var all := before + [elementName] + after;
    AllHaveDotSplit(before, elementName, after);
    var prev := Derive(snapshot, before);
    var step := StillFrameStep(prev, elementName);
    if step != [] {
      DeriveSnoc(snapshot, before, elementName);
      var d1 := Derive(snapshot, before + [elementName]);
      assert d1 == prev + step;
      DeriveMisses(snapshot, before, query);
      forall k | 0 <= k < |prev| ensures !ConditionMatches(d1[k], query) {
        assert d1[k] == prev[k];
        if k < |snapshot| { assert prev[k] == prev[..|snapshot|][k]; }
      }
      assert d1[|prev|] == step[0];
      assert ConditionMatches(d1[|prev|], query) by {
        assert NameMatches(step[0].elementNames[0], query);
      }
      FirstMatchIs(d1, query, |prev|);
      DerivePrefix(snapshot, before + [elementName], after);
      FirstMatchInPrefix(d1, Derive(snapshot, all), query);
      assert Derive(snapshot, all)[|prev|] == Derive(snapshot, all)[..|d1|][|prev|];
    }
  }

  /** The same for a registered animated name `a + "-{n}" + b` (brace-free, with its first '.' starting `b`)
      whose still frame `a + b` matches the query: the first rule to match is the still-frame rule. */
  lemma ReachesListedStill(snapshot: seq<SkinCondition>, before: seq<string>, a: string, b: string,
                           after: seq<string>, query: string, i: nat)
    requires AllHaveDot(before + [a + "-{n}" + b] + after)
    requires '{' !in a && '{' !in b && '.' !in a && b != [] && b[0] == '.'
    requires FirstMatch(snapshot, query) == None
    requires StillsMiss(before, query) && NameMatches(a + b, query)
    requires i < |snapshot| && a + "-{n}" + b in snapshot[i].elementNames
    ensures var r := Derive(snapshot, before + [a + "-{n}" + b] + after);
      exists k :: |snapshot| <= k < |r| && FirstMatch(r, query) == Some(k) &&
                  r[k] == SkinCondition([a + b], Some(NoFrameOf(a + "-{n}" + b)))
  {
    var n := a + "-{n}" + b;
    DashPlaceholderSplit(a, b);
    AnimatedVersionOf(a, b);
    DeriveReachesStill(snapshot, before, n, after, query);
    var prev := Derive(snapshot, before);
    assert prev[i] == prev[..|snapshot|][i];
    assert StillFrameStep(prev, n) == [SkinCondition([a + b], Some(NoFrameOf(n)))];
  }

  /** In the table `Initialize` builds: a query that no registration matches, whose still frame a registered
      animated name `a + "-{n}" + b` gives, and that no still frame of a name visited before it matches,
      first matches the still-frame rule for `a + b`. */
  lemma TableReachesStill(before: seq<string>, a: string, b: string, after: seq<string>, query: string)
    requires Flatten(Categories) == before + [a + "-{n}" + b] + after
    requires '{' !in a && '{' !in b && '.' !in a && b != [] && b[0] == '.'
    requires FirstMatch(Categories, query) == None
    requires StillsMiss(before, query) && NameMatches(a + b, query)
    requires exists i :: 0 <= i < |Categories| && a + "-{n}" + b in Categories[i].elementNames
    ensures exists k :: |Categories| <= k < |Table()| && FirstMatch(Table(), query) == Some(k) &&
                        Table()[k] == SkinCondition([a + b], Some(NoFrameOf(a + "-{n}" + b)))
  {
    CategoriesHaveDot();
    FlattenHasDot(Categories);
    var i :| 0 <= i < |Categories| && a + "-{n}" + b in Categories[i].elementNames;
    ReachesListedStill(Categories, before, a, b, after, query, i);
    var r := Derive(Categories, Flatten(Categories));
    var k :| |Categories| <= k < |r| && FirstMatch(r, query) == Some(k) &&
             r[k] == SkinCondition([a + b], Some(NoFrameOf(a + "-{n}" + b)));
    TableIsDerive();
    assert |Categories| <= k < |Table()| && FirstMatch(Table(), query) == Some(k) &&
           Table()[k] == SkinCondition([a + b], Some(NoFrameOf(a + "-{n}" + b)));
  }

  lemma TableIsDerive()
    ensures AllHaveDot(Flatten(Categories)) && Table() == Derive(Categories, Flatten(Categories))
  {
    CategoriesHaveDot();
    FlattenHasDot(Categories);
  }
}
