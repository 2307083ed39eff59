/** Properties of the table `SkinStatic.Initialize` builds: which rule a given name resolves to, what
    decides whether it is used, and the rules the order of registration shadows.

    Lemmas about one sample name take it as a parameter fixed by `requires elementName == "..."` rather than
    writing the literal into their contracts: the verifier then reasons about the name through the facts
    it is given instead of evaluating every function applied to it. The registrations are stated in three
    lemmas (`EarlyCategories`, `MiddleCategories`, `LateCategories`) for the same reason. */
module SkinProperties {
  import opened Text
  import opened Mapset
  import opened SkinMatching
  import opened SkinRules

  // ---------------------------------------------------------------------------------------------
  // Which names a category list cannot match, judged by their first three characters.

  lemma CursorMisses(elementName: string)
    requires Plain3(elementName)
    requires !(elementName[0] == 'c' && elementName[1] == 'u' && elementName[2] == 'r')
    ensures !AnyNameMatches(Cursor, elementName)
  {
    assert |Cursor| == 4;
    NoneMatchByPrefix(Cursor, elementName);
  }

  lemma PlayfieldMisses(elementName: string)
    requires Plain3(elementName)
    requires !(elementName[0] == 'p' && elementName[1] == 'l' && elementName[2] == 'a') && !(elementName[0] == 'm' && elementName[1] == 'u' && elementName[2] == 'l')
    ensures !AnyNameMatches(Playfield, elementName)
  {
    assert |Playfield| == 3;
    NoneMatchByPrefix(Playfield, elementName);
  }

  lemma PauseScreenMisses(elementName: string)
    requires Plain3(elementName)
    requires !(elementName[0] == 'p' && elementName[1] == 'a' && elementName[2] == 'u') && !(elementName[0] == 'f' && elementName[1] == 'a' && elementName[2] == 'i')
    ensures !AnyNameMatches(PauseScreen, elementName)
  {
    assert |PauseScreen| == 8;
    NoneMatchByPrefix(PauseScreen, elementName);
  }

  lemma ScorebarMisses(elementName: string)
    requires Plain3(elementName)
    requires !(elementName[0] == 's' && elementName[1] == 'c' && elementName[2] == 'o')
    ensures !AnyNameMatches(Scorebar, elementName)
  {
    assert |Scorebar| == 2;
    NoneMatchByPrefix(Scorebar, elementName);
  }

  lemma ScoreNumbersMisses(elementName: string)
    requires Plain3(elementName)
    requires !(elementName[0] == 's' && elementName[1] == 'c' && elementName[2] == 'o')
    ensures !AnyNameMatches(ScoreNumbers, elementName)
  {
    assert |ScoreNumbers| == 14;
    NoneMatchByPrefix(ScoreNumbers, elementName);
  }

  lemma RankingGradesMisses(elementName: string)
    requires Plain3(elementName)
    requires !(elementName[0] == 'r' && elementName[1] == 'a' && elementName[2] == 'n')
    ensures !AnyNameMatches(RankingGrades, elementName)
  {
    assert |RankingGrades| == 8;
    NoneMatchByPrefix(RankingGrades, elementName);
  }

  lemma ScoreEntryMisses(elementName: string)
    requires Plain3(elementName)
    requires !(elementName[0] == 's' && elementName[1] == 'c' && elementName[2] == 'o')
    ensures !AnyNameMatches(ScoreEntry, elementName)
  {
    assert |ScoreEntry| == 14;
    NoneMatchByPrefix(ScoreEntry, elementName);
  }

  lemma SongSelectionMisses(elementName: string)
    requires Plain3(elementName)
    requires !(elementName[0] == 'm' && elementName[1] == 'e' && elementName[2] == 'n') && !(elementName[0] == 's' && elementName[1] == 'e' && elementName[2] == 'l') && !(elementName[0] == 's' && elementName[1] == 't' && elementName[2] == 'a')
    ensures !AnyNameMatches(SongSelection, elementName)
  {
    assert |SongSelection| == 3;
    NoneMatchByPrefix(SongSelection, elementName);
  }

  lemma ModIconsMisses(elementName: string)
    requires Plain3(elementName)
    requires !(elementName[0] == 's' && elementName[1] == 'e' && elementName[2] == 'l')
    ensures !AnyNameMatches(ModIcons, elementName)
  {
    assert |ModIcons| == 12;
    NoneMatchByPrefix(ModIcons, elementName);
  }

  lemma GameplaySoundsMisses(elementName: string)
    requires Plain3(elementName)
    requires !(elementName[0] == 'a' && elementName[1] == 'p' && elementName[2] == 'p') && !(elementName[0] == 'c' && elementName[1] == 'o' && elementName[2] == 'm') && !(elementName[0] == 'f' && elementName[1] == 'a' && elementName[2] == 'i')
    ensures !AnyNameMatches(GameplaySounds, elementName)
  {
    assert |GameplaySounds| == 12;
    NoneMatchByPrefix(GameplaySounds, elementName);
  }

  lemma PauseSoundsMisses(elementName: string)
    requires Plain3(elementName)
    requires !(elementName[0] == 'p' && elementName[1] == 'a' && elementName[2] == 'u')
    ensures !AnyNameMatches(PauseSounds, elementName)
  {
    assert |PauseSounds| == 3;
    NoneMatchByPrefix(PauseSounds, elementName);
  }

  lemma HitBurstsMisses(elementName: string)
    requires Plain3(elementName)
    requires !(elementName[0] == 'h' && elementName[1] == 'i' && elementName[2] == 't')
    ensures !AnyNameMatches(HitBursts, elementName)
  {
    assert |HitBursts| == 7;
    NoneMatchByPrefix(HitBursts, elementName);
  }

  lemma ModIconExceptionsMisses(elementName: string)
    requires Plain3(elementName)
    requires !(elementName[0] == 's' && elementName[1] == 'e' && elementName[2] == 'l')
    ensures !AnyNameMatches(ModIconExceptions, elementName)
  {
    assert |ModIconExceptions| == 3;
    NoneMatchByPrefix(ModIconExceptions, elementName);
  }

  lemma ComboBurstMisses(elementName: string)
    requires Plain3(elementName)
    requires !(elementName[0] == 'c' && elementName[1] == 'o' && elementName[2] == 'm')
    ensures !AnyNameMatches(ComboBurst, elementName)
  {
    assert |ComboBurst| == 2;
    NoneMatchByPrefix(ComboBurst, elementName);
  }

  lemma DefaultNumbersMisses(elementName: string)
    requires Plain3(elementName)
    requires !(elementName[0] == 'd' && elementName[1] == 'e' && elementName[2] == 'f')
    ensures !AnyNameMatches(DefaultNumbers, elementName)
  {
    assert |DefaultNumbers| == 10;
    NoneMatchByPrefix(DefaultNumbers, elementName);
  }

  lemma HitCirclesMisses(elementName: string)
    requires Plain3(elementName)
    requires !(elementName[0] == 'a' && elementName[1] == 'p' && elementName[2] == 'p') && !(elementName[0] == 'h' && elementName[1] == 'i' && elementName[2] == 't') && !(elementName[0] == 'f' && elementName[1] == 'o' && elementName[2] == 'l') && !(elementName[0] == 'l' && elementName[1] == 'i' && elementName[2] == 'g')
    ensures !AnyNameMatches(HitCircles, elementName)
  {
    assert |HitCircles| == 8;
    NoneMatchByPrefix(HitCircles, elementName);
  }

  lemma SkinManiaMisses(elementName: string)
    requires Plain3(elementName)
    requires !(elementName[0] == 's' && elementName[1] == 'e' && elementName[2] == 'l')
    ensures !AnyNameMatches(SkinMania, elementName)
  {
    assert |SkinMania| == 12;
    NoneMatchByPrefix(SkinMania, elementName);
  }

  lemma SkinCatchMisses(elementName: string)
    requires Plain3(elementName)
    requires !(elementName[0] == 'i' && elementName[1] == 'n' && elementName[2] == 'p')
    ensures !AnyNameMatches(SkinCatch, elementName)
  {
    assert |SkinCatch| == 2;
    NoneMatchByPrefix(SkinCatch, elementName);
  }

  lemma SkinNotManiaMisses(elementName: string)
    requires Plain3(elementName)
    requires !(elementName[0] == 's' && elementName[1] == 'c' && elementName[2] == 'o') && !(elementName[0] == 's' && elementName[1] == 'e' && elementName[2] == 'l')
    ensures !AnyNameMatches(SkinNotMania, elementName)
  {
    assert |SkinNotMania| == 5;
    NoneMatchByPrefix(SkinNotMania, elementName);
  }

  lemma CountdownPlayfieldMisses(elementName: string)
    requires Plain3(elementName)
    requires !(elementName[0] == 'c' && elementName[1] == 'o' && elementName[2] == 'u') && !(elementName[0] == 'g' && elementName[1] == 'o' && elementName[2] == '.') && !(elementName[0] == 'r' && elementName[1] == 'e' && elementName[2] == 'a')
    ensures !AnyNameMatches(CountdownPlayfield, elementName)
  {
    assert |CountdownPlayfield| == 5;
    NoneMatchByPrefix(CountdownPlayfield, elementName);
  }

  lemma CountdownSoundsMisses(elementName: string)
    requires Plain3(elementName)
    requires !(elementName[0] == 'c' && elementName[1] == 'o' && elementName[2] == 'u') && !(elementName[0] == 'g' && elementName[1] == 'o' && elementName[2] == 's') && !(elementName[0] == 'r' && elementName[1] == 'e' && elementName[2] == 'a')
    ensures !AnyNameMatches(CountdownSounds, elementName)
  {
    assert |CountdownSounds| == 15;
    NoneMatchByPrefix(CountdownSounds, elementName);
  }

  lemma SkinStandardSliderMisses(elementName: string)
    requires Plain3(elementName)
    requires !(elementName[0] == 's' && elementName[1] == 'l' && elementName[2] == 'i')
    ensures !AnyNameMatches(SkinStandardSlider, elementName)
  {
    assert |SkinStandardSlider| == 15;
    NoneMatchByPrefix(SkinStandardSlider, elementName);
  }

  lemma SpinnerElementsMisses(elementName: string)
    requires Plain3(elementName)
    requires !(elementName[0] == 's' && elementName[1] == 'p' && elementName[2] == 'i')
    ensures !AnyNameMatches(SpinnerElements, elementName)
  {
    assert |SpinnerElements| == 9;
    NoneMatchByPrefix(SpinnerElements, elementName);
  }

  lemma OldSpinnerMisses(elementName: string)
    requires Plain3(elementName)
    requires !(elementName[0] == 's' && elementName[1] == 'p' && elementName[2] == 'i')
    ensures !AnyNameMatches(OldSpinner, elementName)
  {
    assert |OldSpinner| == 4;
    NoneMatchByPrefix(OldSpinner, elementName);
  }

  lemma SpinnerSoundsMisses(elementName: string)
    requires Plain3(elementName)
    requires !(elementName[0] == 's' && elementName[1] == 'p' && elementName[2] == 'i')
    ensures !AnyNameMatches(SpinnerSounds, elementName)
  {
    assert |SpinnerSounds| == 6;
    NoneMatchByPrefix(SpinnerSounds, elementName);
  }

  lemma SkinNotSliderbMisses(elementName: string)
    requires Plain3(elementName)
    requires !(elementName[0] == 's' && elementName[1] == 'l' && elementName[2] == 'i')
    ensures !AnyNameMatches(SkinNotSliderb, elementName)
  {
    assert |SkinNotSliderb| == 2;
    NoneMatchByPrefix(SkinNotSliderb, elementName);
  }

  lemma SkinBreakMisses(elementName: string)
    requires Plain3(elementName)
    requires !(elementName[0] == 's' && elementName[1] == 'e' && elementName[2] == 'c')
    ensures !AnyNameMatches(SkinBreak, elementName)
  {
    assert |SkinBreak| == 8;
    NoneMatchByPrefix(SkinBreak, elementName);
  }

  /** `SkinGeneral` matches exactly when one of its groups does. */
  lemma SkinGeneralMatchesIff(elementName: string)
    ensures AnyNameMatches(SkinGeneral, elementName) <==>
              AnyNameMatches(Cursor, elementName) || AnyNameMatches(Playfield, elementName) || AnyNameMatches(PauseScreen, elementName) || AnyNameMatches(Scorebar, elementName) || AnyNameMatches(ScoreNumbers, elementName) || AnyNameMatches(RankingGrades, elementName) || AnyNameMatches(ScoreEntry, elementName) || AnyNameMatches(SongSelection, elementName) || AnyNameMatches(ModIcons, elementName) || AnyNameMatches(GameplaySounds, elementName) || AnyNameMatches(PauseSounds, elementName)
  {
    AnyNameMatchesAppend(Cursor, Playfield, elementName);
    AnyNameMatchesAppend(Cursor + Playfield, PauseScreen, elementName);
    AnyNameMatchesAppend(Cursor + Playfield + PauseScreen, Scorebar, elementName);
    AnyNameMatchesAppend(Cursor + Playfield + PauseScreen + Scorebar, ScoreNumbers, elementName);
    AnyNameMatchesAppend(Cursor + Playfield + PauseScreen + Scorebar + ScoreNumbers, RankingGrades, elementName);
    AnyNameMatchesAppend(Cursor + Playfield + PauseScreen + Scorebar + ScoreNumbers + RankingGrades, ScoreEntry, elementName);
    AnyNameMatchesAppend(Cursor + Playfield + PauseScreen + Scorebar + ScoreNumbers + RankingGrades + ScoreEntry, SongSelection, elementName);
    AnyNameMatchesAppend(Cursor + Playfield + PauseScreen + Scorebar + ScoreNumbers + RankingGrades + ScoreEntry + SongSelection, ModIcons, elementName);
    AnyNameMatchesAppend(Cursor + Playfield + PauseScreen + Scorebar + ScoreNumbers + RankingGrades + ScoreEntry + SongSelection + ModIcons, GameplaySounds, elementName);
    AnyNameMatchesAppend(Cursor + Playfield + PauseScreen + Scorebar + ScoreNumbers + RankingGrades + ScoreEntry + SongSelection + ModIcons + GameplaySounds, PauseSounds, elementName);
  }

  lemma SkinGeneralMisses(elementName: string)
    requires Plain3(elementName)
    requires !(elementName[0] == 'c' && elementName[1] == 'u' && elementName[2] == 'r') && !(elementName[0] == 'p' && elementName[1] == 'l' && elementName[2] == 'a') && !(elementName[0] == 'm' && elementName[1] == 'u' && elementName[2] == 'l') && !(elementName[0] == 'p' && elementName[1] == 'a' && elementName[2] == 'u') && !(elementName[0] == 'f' && elementName[1] == 'a' && elementName[2] == 'i') && !(elementName[0] == 's' && elementName[1] == 'c' && elementName[2] == 'o') && !(elementName[0] == 'r' && elementName[1] == 'a' && elementName[2] == 'n') && !(elementName[0] == 'm' && elementName[1] == 'e' && elementName[2] == 'n') && !(elementName[0] == 's' && elementName[1] == 'e' && elementName[2] == 'l') && !(elementName[0] == 's' && elementName[1] == 't' && elementName[2] == 'a') && !(elementName[0] == 'a' && elementName[1] == 'p' && elementName[2] == 'p') && !(elementName[0] == 'c' && elementName[1] == 'o' && elementName[2] == 'm')
    ensures !AnyNameMatches(SkinGeneral, elementName)
  {
    SkinGeneralMatchesIff(elementName);
    CursorMisses(elementName);
    PlayfieldMisses(elementName);
    PauseScreenMisses(elementName);
    ScorebarMisses(elementName);
    ScoreNumbersMisses(elementName);
    RankingGradesMisses(elementName);
    ScoreEntryMisses(elementName);
    SongSelectionMisses(elementName);
    ModIconsMisses(elementName);
    GameplaySoundsMisses(elementName);
    PauseSoundsMisses(elementName);
  }

  /** `SkinStandard` matches exactly when one of its groups does. */
  lemma SkinStandardMatchesIff(elementName: string)
    ensures AnyNameMatches(SkinStandard, elementName) <==>
              AnyNameMatches(HitBursts, elementName) || AnyNameMatches(ModIconExceptions, elementName) || AnyNameMatches(ComboBurst, elementName) || AnyNameMatches(DefaultNumbers, elementName) || AnyNameMatches(HitCircles, elementName)
  {
    AnyNameMatchesAppend(HitBursts, ModIconExceptions, elementName);
    AnyNameMatchesAppend(HitBursts + ModIconExceptions, ComboBurst, elementName);
    AnyNameMatchesAppend(HitBursts + ModIconExceptions + ComboBurst, DefaultNumbers, elementName);
    AnyNameMatchesAppend(HitBursts + ModIconExceptions + ComboBurst + DefaultNumbers, HitCircles, elementName);
  }

  lemma SkinStandardMisses(elementName: string)
    requires Plain3(elementName)
    requires !(elementName[0] == 'h' && elementName[1] == 'i' && elementName[2] == 't') && !(elementName[0] == 's' && elementName[1] == 'e' && elementName[2] == 'l') && !(elementName[0] == 'c' && elementName[1] == 'o' && elementName[2] == 'm') && !(elementName[0] == 'd' && elementName[1] == 'e' && elementName[2] == 'f') && !(elementName[0] == 'a' && elementName[1] == 'p' && elementName[2] == 'p') && !(elementName[0] == 'f' && elementName[1] == 'o' && elementName[2] == 'l') && !(elementName[0] == 'l' && elementName[1] == 'i' && elementName[2] == 'g')
    ensures !AnyNameMatches(SkinStandard, elementName)
  {
    SkinStandardMatchesIff(elementName);
    HitBurstsMisses(elementName);
    ModIconExceptionsMisses(elementName);
    ComboBurstMisses(elementName);
    DefaultNumbersMisses(elementName);
    HitCirclesMisses(elementName);
  }

  /** `SkinCountdown` matches exactly when one of its groups does. */
  lemma SkinCountdownMatchesIff(elementName: string)
    ensures AnyNameMatches(SkinCountdown, elementName) <==>
              AnyNameMatches(CountdownPlayfield, elementName) || AnyNameMatches(CountdownSounds, elementName)
  {
    AnyNameMatchesAppend(CountdownPlayfield, CountdownSounds, elementName);
  }

  lemma SkinCountdownMisses(elementName: string)
    requires Plain3(elementName)
    requires !(elementName[0] == 'c' && elementName[1] == 'o' && elementName[2] == 'u') && !(elementName[0] == 'g' && elementName[1] == 'o' && elementName[2] == '.') && !(elementName[0] == 'r' && elementName[1] == 'e' && elementName[2] == 'a') && !(elementName[0] == 'g' && elementName[1] == 'o' && elementName[2] == 's')
    ensures !AnyNameMatches(SkinCountdown, elementName)
  {
    SkinCountdownMatchesIff(elementName);
    CountdownPlayfieldMisses(elementName);
    CountdownSoundsMisses(elementName);
  }

  /** `SkinStandardSpinner` matches exactly when one of its groups does. */
  lemma SkinStandardSpinnerMatchesIff(elementName: string)
    ensures AnyNameMatches(SkinStandardSpinner, elementName) <==>
              AnyNameMatches(SpinnerElements, elementName) || AnyNameMatches(OldSpinner, elementName) || AnyNameMatches(SpinnerSounds, elementName)
  {
    AnyNameMatchesAppend(SpinnerElements, OldSpinner, elementName);
    AnyNameMatchesAppend(SpinnerElements + OldSpinner, SpinnerSounds, elementName);
  }

  lemma SkinStandardSpinnerMisses(elementName: string)
    requires Plain3(elementName)
    requires !(elementName[0] == 's' && elementName[1] == 'p' && elementName[2] == 'i')
    ensures !AnyNameMatches(SkinStandardSpinner, elementName)
  {
    SkinStandardSpinnerMatchesIff(elementName);
    SpinnerElementsMisses(elementName);
    OldSpinnerMisses(elementName);
    SpinnerSoundsMisses(elementName);
  }

  // ---------------------------------------------------------------------------------------------
  // The registrations and the gates.

  /** The names and use conditions of the first registrations of `Initialize`. */
  lemma EarlyCategories()
    ensures |Categories| == 14
    ensures Categories[0] == SkinCondition(SkinGeneral, None)
    ensures Categories[1] == SkinCondition(SkinStandard, Some(AnyMode({Standard})))
    ensures Categories[2] == SkinCondition(SkinCatch, Some(AnyMode({Catch, Standard})))
    ensures Categories[3] == SkinCondition(SkinMania, Some(AnyMode({Mania, Standard})))
  {
  }

  /** The names and use conditions of the middle registrations. */
  lemma MiddleCategories()
    ensures |Categories| == 14
    ensures Categories[4] == SkinCondition(SkinNotMania, Some(AnyNotMania))
    ensures Categories[5] == SkinCondition(SkinCountdown, Some(AnyCountdown))
    ensures Categories[6] == SkinCondition(SkinStandardSlider, Some(AnySlider))
    ensures Categories[7] == SkinCondition(["reversearrow.png"], Some(AnyMultiEdgeSlider))
  {
  }

  /** The names and use conditions of the last registrations. */
  lemma LateCategories()
    ensures |Categories| == 14
    ensures Categories[8] == SkinCondition(SkinStandardSpinner, Some(AnySpinner))
    ensures Categories[9] == SkinCondition(SkinBreak, Some(AnyBreak))
    ensures Categories[10] == SkinCondition(SkinNotSliderb, Some(NoPath("sliderb.png")))
    ensures Categories[11] == SkinCondition(["particle50.png"], Some(HasPath("hit50.png")))
    ensures Categories[12] == SkinCondition(["particle100.png"], Some(HasPath("hit100.png")))
    ensures Categories[13] == SkinCondition(["particle300.png"], Some(HasPath("hit300.png")))
  {
  }

  /** The standard rule holds exactly when some beatmap is standard. */
  lemma StandardGate(names: seq<string>, beatmapSet: BeatmapSet, cutPath: string -> string)
    ensures Holds(SkinCondition(names, Some(AnyMode({Standard}))), beatmapSet, cutPath) <==>
      exists i :: 0 <= i < |beatmapSet.beatmaps| && beatmapSet.beatmaps[i].mode == Standard
  {
  }

  /** The catch rule holds exactly when some beatmap is catch or standard (standard converts to catch). */
  lemma CatchGate(names: seq<string>, beatmapSet: BeatmapSet, cutPath: string -> string)
    ensures Holds(SkinCondition(names, Some(AnyMode({Catch, Standard}))), beatmapSet, cutPath) <==>
      exists i :: 0 <= i < |beatmapSet.beatmaps| && beatmapSet.beatmaps[i].mode in {Catch, Standard}
  {
  }

  /** The mania rule holds exactly when some beatmap is mania or standard (standard converts to mania). */
  lemma ManiaGate(names: seq<string>, beatmapSet: BeatmapSet, cutPath: string -> string)
    ensures Holds(SkinCondition(names, Some(AnyMode({Mania, Standard}))), beatmapSet, cutPath) <==>
      exists i :: 0 <= i < |beatmapSet.beatmaps| && beatmapSet.beatmaps[i].mode in {Mania, Standard}
  {
  }

  /** The rule for everything but mania holds exactly when some beatmap is not mania. */
  lemma NotManiaGate(names: seq<string>, beatmapSet: BeatmapSet, cutPath: string -> string)
    ensures Holds(SkinCondition(names, Some(AnyNotMania)), beatmapSet, cutPath) <==>
      exists i :: 0 <= i < |beatmapSet.beatmaps| && beatmapSet.beatmaps[i].mode != Mania
  {
  }

  /** The countdown rule holds exactly when some beatmap has a countdown. */
  lemma CountdownGate(names: seq<string>, beatmapSet: BeatmapSet, cutPath: string -> string)
    ensures Holds(SkinCondition(names, Some(AnyCountdown)), beatmapSet, cutPath) <==>
      exists i :: 0 <= i < |beatmapSet.beatmaps| && beatmapSet.beatmaps[i].countdown > 0
  {
  }

  /** The slider rule holds exactly when some beatmap has a slider. */
  lemma SliderGate(names: seq<string>, beatmapSet: BeatmapSet, cutPath: string -> string)
    ensures Holds(SkinCondition(names, Some(AnySlider)), beatmapSet, cutPath) <==>
      exists i, j :: 0 <= i < |beatmapSet.beatmaps| && 0 <= j < |beatmapSet.beatmaps[i].hitObjects| &&
                     beatmapSet.beatmaps[i].hitObjects[j].Slider?
  {
  }

  /** The reverse-arrow rule holds exactly when some slider has more than one edge. */
  lemma MultiEdgeSliderGate(names: seq<string>, beatmapSet: BeatmapSet, cutPath: string -> string)
    ensures Holds(SkinCondition(names, Some(AnyMultiEdgeSlider)), beatmapSet, cutPath) <==>
      exists i, j :: 0 <= i < |beatmapSet.beatmaps| && 0 <= j < |beatmapSet.beatmaps[i].hitObjects| &&
                     beatmapSet.beatmaps[i].hitObjects[j].Slider? && beatmapSet.beatmaps[i].hitObjects[j].edgeAmount > 1
  {
  }

  /** The spinner rule holds exactly when some beatmap has a spinner. */
  lemma SpinnerGate(names: seq<string>, beatmapSet: BeatmapSet, cutPath: string -> string)
    ensures Holds(SkinCondition(names, Some(AnySpinner)), beatmapSet, cutPath) <==>
      exists i, j :: 0 <= i < |beatmapSet.beatmaps| && 0 <= j < |beatmapSet.beatmaps[i].hitObjects| &&
                     beatmapSet.beatmaps[i].hitObjects[j].Spinner?
  {
  }

  /** The break rule holds exactly when some beatmap has a break. */
  lemma BreakGate(names: seq<string>, beatmapSet: BeatmapSet, cutPath: string -> string)
    ensures Holds(SkinCondition(names, Some(AnyBreak)), beatmapSet, cutPath) <==>
      exists i :: 0 <= i < |beatmapSet.beatmaps| && beatmapSet.beatmaps[i].breaks != []
  {
  }

  /** A rule that depends on another element holds exactly when some file of the set is that element. */
  lemma PathGate(names: seq<string>, name: string, beatmapSet: BeatmapSet, cutPath: string -> string)
    ensures Holds(SkinCondition(names, Some(HasPath(name))), beatmapSet, cutPath) <==>
      exists i :: 0 <= i < |beatmapSet.songFilePaths| && cutPath(beatmapSet.songFilePaths[i]) == name
  {
  }

  // ---------------------------------------------------------------------------------------------
  // Resolution against the table.

  /** The first rules of the table are the registrations of `Initialize`, in order. */
  lemma CategoryRule(k: nat)
    requires k < |Categories|
    ensures k < |Table()| && Table()[k] == Categories[k]
  {
    assert Table()[..|Categories|][k] == Table()[k];
  }

  /** The rules the derivation pass appends never change which registration a name resolves to; the name is
      then used exactly when that registration's condition holds. */
  lemma ResolvesTo(elementName: string, k: nat, beatmapSet: BeatmapSet, cutPath: string -> string)
    requires FirstMatch(Categories, elementName) == Some(k)
    ensures FirstMatch(Table(), elementName) == Some(k)
    ensures Used(Table(), elementName, beatmapSet, cutPath) <==> Holds(Categories[k], beatmapSet, cutPath)
  {
    FirstMatchInPrefix(Categories, Table(), elementName);
    CategoryRule(k);
    UsedAtFirstMatch(Table(), elementName, k, beatmapSet, cutPath);
  }

  /** The names of `skinGeneral` are always used: their rule comes first and has the null predicate. */
  lemma GeneralAlwaysUsed(elementName: string, beatmapSet: BeatmapSet, cutPath: string -> string)
    requires AnyNameMatches(SkinGeneral, elementName)
    ensures FirstMatch(Table(), elementName) == Some(0)
    ensures Used(Table(), elementName, beatmapSet, cutPath)
  {
    EarlyCategories();
    StopAtRule(Categories, elementName, 0);
    ResolvesTo(elementName, 0, beatmapSet, cutPath);
  }

  /** Literal names are compared without regard to case: `Scorebar-BG.PNG` matches the general
      `scorebar-bg.png`. */
  lemma MixedCaseNameIsGeneral()
    ensures AnyNameMatches(SkinGeneral, "Scorebar-BG.PNG")
  {
    CaseFold(Scorebar[0], "Scorebar-BG.PNG");
    assert NameMatches(Scorebar[0], "Scorebar-BG.PNG");
    SkinGeneralMatchesIff("Scorebar-BG.PNG");
  }

  /** So `Scorebar-BG.PNG` is always used. */
  lemma MixedCaseNameUsed(beatmapSet: BeatmapSet, cutPath: string -> string)
    ensures Used(Table(), "Scorebar-BG.PNG", beatmapSet, cutPath)
  {
    MixedCaseNameIsGeneral();
    GeneralAlwaysUsed("Scorebar-BG.PNG", beatmapSet, cutPath);
  }

  /** The `sliderb-nd.png` and `sliderb-spec.png` names registered with the override check on
      `sliderb.png` are listed by the slider rule too. */
  lemma NotSliderbNamesAreSliderNames(elementName: string)
    ensures AnyNameMatches(SkinNotSliderb, elementName) ==> AnyNameMatches(SkinStandardSlider, elementName)
  {
    assert SkinStandardSlider[10..12] == SkinNotSliderb;
    SliceMatches(SkinStandardSlider, 10, 12, elementName);
  }

  /** So whatever the registration for `skinNotSliderb` matches, the slider rule matches too. */
  lemma NotSliderbRuleCoveredBySliderRule(elementName: string)
    ensures ConditionMatches(Categories[10], elementName) ==> ConditionMatches(Categories[6], elementName)
  {
    assert Categories[10].elementNames == SkinNotSliderb && Categories[6].elementNames == SkinStandardSlider;
    NotSliderbNamesAreSliderNames(elementName);
  }

  /** First match wins, so the rule registered for `skinNotSliderb` never decides a query. */
  lemma NotSliderbUnreachable(elementName: string)
    ensures FirstMatch(Table(), elementName) != Some(10)
  {
    CategoryRule(6);
    CategoryRule(10);
    NotSliderbRuleCoveredBySliderRule(elementName);
    CoveredRuleUnreachable(Table(), elementName, 6, 10);
  }

  /** `sliderb-nd.png` and `sliderb-spec.png` match no rule registered before the slider rule. */
  lemma SliderbVariantsMissEarlier(elementName: string)
    requires elementName == "sliderb-nd.png" || elementName == "sliderb-spec.png"
    ensures !AnyNameMatches(SkinGeneral, elementName) && !AnyNameMatches(SkinStandard, elementName)
    ensures !AnyNameMatches(SkinCatch, elementName) && !AnyNameMatches(SkinMania, elementName)
    ensures !AnyNameMatches(SkinNotMania, elementName) && !AnyNameMatches(SkinCountdown, elementName)
  {
    SkinGeneralMisses(elementName);
    SkinStandardMisses(elementName);
    SkinCatchMisses(elementName);
    SkinManiaMisses(elementName);
    SkinNotManiaMisses(elementName);
    SkinCountdownMisses(elementName);
  }

  /** Among the registrations, `sliderb-nd.png` and `sliderb-spec.png` first match the slider rule. */
  lemma SliderbVariantsFirstMatch(elementName: string)
    requires elementName == "sliderb-nd.png" || elementName == "sliderb-spec.png"
    ensures FirstMatch(Categories, elementName) == Some(6)
  {
    SliderbVariantsMissEarlier(elementName);
    if elementName == "sliderb-nd.png" {
      MatchesListed(SkinNotSliderb, 0, elementName);
    } else {
      MatchesListed(SkinNotSliderb, 1, elementName);
    }
    NotSliderbNamesAreSliderNames(elementName);
    EarlyCategories();
    MiddleCategories();
    SkipRule(Categories, elementName, 0);
    SkipRule(Categories, elementName, 1);
    SkipRule(Categories, elementName, 2);
    SkipRule(Categories, elementName, 3);
    SkipRule(Categories, elementName, 4);
    SkipRule(Categories, elementName, 5);
    StopAtRule(Categories, elementName, 6);
  }

  /** First match wins: `sliderb-nd.png` and `sliderb-spec.png` resolve to the slider rule, so they are
      used exactly when some beatmap has a slider, whatever overrides `sliderb.png`. */
  lemma SliderbVariantsResolve(elementName: string, beatmapSet: BeatmapSet, cutPath: string -> string)
    requires elementName == "sliderb-nd.png" || elementName == "sliderb-spec.png"
    ensures FirstMatch(Table(), elementName) == Some(6)
    ensures Used(Table(), elementName, beatmapSet, cutPath) <==>
      exists i, j :: 0 <= i < |beatmapSet.beatmaps| && 0 <= j < |beatmapSet.beatmaps[i].hitObjects| &&
                     beatmapSet.beatmaps[i].hitObjects[j].Slider?
  {
    SliderbVariantsFirstMatch(elementName);
    ResolvesTo(elementName, 6, beatmapSet, cutPath);
    MiddleCategories();
    SliderGate(SkinStandardSlider, beatmapSet, cutPath);
  }

  /** `comboburst.png` matches no name of `GameplaySounds`: each differs from it at some lower-case position. */
  lemma ComboBurstMissesGameplaySounds(elementName: string)
    requires elementName == "comboburst.png"
    ensures !AnyNameMatches(GameplaySounds, elementName)
  {
    assert |GameplaySounds| == 12;
    NoneMatchAtEach(GameplaySounds, elementName, [0, 0, 0, 11, 11, 11, 6, 6, 6, 0, 0, 0]);
  }

  /** Rule 1 lists `comboburst.png`. */
  lemma ComboBurstListed(elementName: string)
    requires elementName == "comboburst.png"
    ensures AnyNameMatches(SkinStandard, elementName)
  {
    MatchesListed(ComboBurst, 0, elementName);
    SkinStandardMatchesIff(elementName);
  }

  /** `comboburst.png` matches no rule registered before rule 1. */
  lemma ComboBurstMissesEarlier(elementName: string)
    requires elementName == "comboburst.png"
    ensures !AnyNameMatches(SkinGeneral, elementName)
  {
    CursorMisses(elementName);
    PlayfieldMisses(elementName);
    PauseScreenMisses(elementName);
    ScorebarMisses(elementName);
    ScoreNumbersMisses(elementName);
    RankingGradesMisses(elementName);
    ScoreEntryMisses(elementName);
    SongSelectionMisses(elementName);
    ModIconsMisses(elementName);
    ComboBurstMissesGameplaySounds(elementName);
    PauseSoundsMisses(elementName);
    SkinGeneralMatchesIff(elementName);
  }

  /** Among the registrations, `comboburst.png` first matches rule 1. */
  lemma ComboBurstFirstMatch(elementName: string)
    requires elementName == "comboburst.png"
    ensures FirstMatch(Categories, elementName) == Some(1)
  {
    ComboBurstMissesEarlier(elementName);
    ComboBurstListed(elementName);
    EarlyCategories();
    SkipRule(Categories, elementName, 0);
    StopAtRule(Categories, elementName, 1);
  }

  /** `comboburst.png` resolves to the standard rule: used exactly when some beatmap is standard. */
  lemma ComboBurstResolves(beatmapSet: BeatmapSet, cutPath: string -> string)
    ensures FirstMatch(Table(), "comboburst.png") == Some(1)
    ensures Used(Table(), "comboburst.png", beatmapSet, cutPath) <==>
      exists i :: 0 <= i < |beatmapSet.beatmaps| && beatmapSet.beatmaps[i].mode == Standard
  {
    ComboBurstFirstMatch("comboburst.png");
    ResolvesTo("comboburst.png", 1, beatmapSet, cutPath);
    EarlyCategories();
    StandardGate(SkinStandard, beatmapSet, cutPath);
  }

  /** Rule 1 lists `hitcircleoverlay.png`. */
  lemma HitCircleOverlayListed(elementName: string)
    requires elementName == "hitcircleoverlay.png"
    ensures AnyNameMatches(SkinStandard, elementName)
  {
    MatchesListed(HitCircles, 2, elementName);
    SkinStandardMatchesIff(elementName);
  }

  /** `hitcircleoverlay.png` matches no rule registered before rule 1. */
  lemma HitCircleOverlayMissesEarlier(elementName: string)
    requires elementName == "hitcircleoverlay.png"
    ensures !AnyNameMatches(SkinGeneral, elementName)
  {
    SkinGeneralMisses(elementName);
  }

  /** Among the registrations, `hitcircleoverlay.png` first matches rule 1. */
  lemma HitCircleOverlayFirstMatch(elementName: string)
    requires elementName == "hitcircleoverlay.png"
    ensures FirstMatch(Categories, elementName) == Some(1)
  {
    HitCircleOverlayMissesEarlier(elementName);
    HitCircleOverlayListed(elementName);
    EarlyCategories();
    SkipRule(Categories, elementName, 0);
    StopAtRule(Categories, elementName, 1);
  }

  /** `hitcircleoverlay.png` resolves to the standard rule: used exactly when some beatmap is standard. */
  lemma HitCircleOverlayResolves(beatmapSet: BeatmapSet, cutPath: string -> string)
    ensures FirstMatch(Table(), "hitcircleoverlay.png") == Some(1)
    ensures Used(Table(), "hitcircleoverlay.png", beatmapSet, cutPath) <==>
      exists i :: 0 <= i < |beatmapSet.beatmaps| && beatmapSet.beatmaps[i].mode == Standard
  {
    HitCircleOverlayFirstMatch("hitcircleoverlay.png");
    ResolvesTo("hitcircleoverlay.png", 1, beatmapSet, cutPath);
    EarlyCategories();
    StandardGate(SkinStandard, beatmapSet, cutPath);
  }

  /** Rule 1 lists `followpoint.png`. */
  lemma FollowPointListed(elementName: string)
    requires elementName == "followpoint.png"
    ensures AnyNameMatches(SkinStandard, elementName)
  {
    MatchesListed(HitCircles, 5, elementName);
    SkinStandardMatchesIff(elementName);
  }

  /** `followpoint.png` matches no rule registered before rule 1. */
  lemma FollowPointMissesEarlier(elementName: string)
    requires elementName == "followpoint.png"
    ensures !AnyNameMatches(SkinGeneral, elementName)
  {
    SkinGeneralMisses(elementName);
  }

  /** Among the registrations, `followpoint.png` first matches rule 1. */
  lemma FollowPointFirstMatch(elementName: string)
    requires elementName == "followpoint.png"
    ensures FirstMatch(Categories, elementName) == Some(1)
  {
    FollowPointMissesEarlier(elementName);
    FollowPointListed(elementName);
    EarlyCategories();
    SkipRule(Categories, elementName, 0);
    StopAtRule(Categories, elementName, 1);
  }

  /** `followpoint.png` resolves to the standard rule: used exactly when some beatmap is standard. */
  lemma FollowPointResolves(beatmapSet: BeatmapSet, cutPath: string -> string)
    ensures FirstMatch(Table(), "followpoint.png") == Some(1)
    ensures Used(Table(), "followpoint.png", beatmapSet, cutPath) <==>
      exists i :: 0 <= i < |beatmapSet.beatmaps| && beatmapSet.beatmaps[i].mode == Standard
  {
    FollowPointFirstMatch("followpoint.png");
    ResolvesTo("followpoint.png", 1, beatmapSet, cutPath);
    EarlyCategories();
    StandardGate(SkinStandard, beatmapSet, cutPath);
  }

  /** Rule 2 lists `inputoverlay-key.png`. */
  lemma InputOverlayKeyListed(elementName: string)
    requires elementName == "inputoverlay-key.png"
    ensures AnyNameMatches(SkinCatch, elementName)
  {
    MatchesListed(SkinCatch, 1, elementName);
  }

  /** `inputoverlay-key.png` matches no rule registered before rule 2. */
  lemma InputOverlayKeyMissesEarlier(elementName: string)
    requires elementName == "inputoverlay-key.png"
    ensures !AnyNameMatches(SkinGeneral, elementName) && !AnyNameMatches(SkinStandard, elementName)
  {
    SkinGeneralMisses(elementName);
    SkinStandardMisses(elementName);
  }

  /** Among the registrations, `inputoverlay-key.png` first matches rule 2. */
  lemma InputOverlayKeyFirstMatch(elementName: string)
    requires elementName == "inputoverlay-key.png"
    ensures FirstMatch(Categories, elementName) == Some(2)
  {
    InputOverlayKeyMissesEarlier(elementName);
    InputOverlayKeyListed(elementName);
    EarlyCategories();
    SkipRule(Categories, elementName, 0);
    SkipRule(Categories, elementName, 1);
    StopAtRule(Categories, elementName, 2);
  }

  /** `inputoverlay-key.png` resolves to the catch rule: used exactly when some beatmap is catch or standard. */
  lemma InputOverlayKeyResolves(beatmapSet: BeatmapSet, cutPath: string -> string)
    ensures FirstMatch(Table(), "inputoverlay-key.png") == Some(2)
    ensures Used(Table(), "inputoverlay-key.png", beatmapSet, cutPath) <==>
      exists i :: 0 <= i < |beatmapSet.beatmaps| && beatmapSet.beatmaps[i].mode in {Catch, Standard}
  {
    InputOverlayKeyFirstMatch("inputoverlay-key.png");
    ResolvesTo("inputoverlay-key.png", 2, beatmapSet, cutPath);
    EarlyCategories();
    CatchGate(SkinCatch, beatmapSet, cutPath);
  }

  /** `selection-mod-key4.png` matches no name of `SongSelection`: each differs from it at some lower-case position. */
  lemma ManiaKeyIconMissesSongSelection(elementName: string)
    requires elementName == "selection-mod-key4.png"
    ensures !AnyNameMatches(SongSelection, elementName)
  {
    assert |SongSelection| == 3;
    NoneMatchAtEach(SongSelection, elementName, [0, 10, 1]);
  }

  /** `selection-mod-key4.png` matches no name of `ModIcons`: each differs from it at some lower-case position. */
  lemma ManiaKeyIconMissesModIcons(elementName: string)
    requires elementName == "selection-mod-key4.png"
    ensures !AnyNameMatches(ModIcons, elementName)
  {
    assert |ModIcons| == 12;
    NoneMatchAt(ModIcons, elementName, 14);
  }

  /** `selection-mod-key4.png` matches no name of `ModIconExceptions`: each differs from it at some lower-case position. */
  lemma ManiaKeyIconMissesModIconExceptions(elementName: string)
    requires elementName == "selection-mod-key4.png"
    ensures !AnyNameMatches(ModIconExceptions, elementName)
  {
    assert |ModIconExceptions| == 3;
    NoneMatchAt(ModIconExceptions, elementName, 14);
  }

  /** Rule 3 lists `selection-mod-key4.png`. */
  lemma ManiaKeyIconListed(elementName: string)
    requires elementName == "selection-mod-key4.png"
    ensures AnyNameMatches(SkinMania, elementName)
  {
    MatchesListed(SkinMania, 4, elementName);
  }

  /** `selection-mod-key4.png` matches no rule registered before rule 3. */
  lemma ManiaKeyIconMissesEarlier(elementName: string)
    requires elementName == "selection-mod-key4.png"
    ensures !AnyNameMatches(SkinGeneral, elementName) && !AnyNameMatches(SkinStandard, elementName)
    ensures !AnyNameMatches(SkinCatch, elementName)
  {
    CursorMisses(elementName);
    PlayfieldMisses(elementName);
    PauseScreenMisses(elementName);
    ScorebarMisses(elementName);
    ScoreNumbersMisses(elementName);
    RankingGradesMisses(elementName);
    ScoreEntryMisses(elementName);
    ManiaKeyIconMissesSongSelection(elementName);
    ManiaKeyIconMissesModIcons(elementName);
    GameplaySoundsMisses(elementName);
    PauseSoundsMisses(elementName);
    SkinGeneralMatchesIff(elementName);
    HitBurstsMisses(elementName);
    ManiaKeyIconMissesModIconExceptions(elementName);
    ComboBurstMisses(elementName);
    DefaultNumbersMisses(elementName);
    HitCirclesMisses(elementName);
    SkinStandardMatchesIff(elementName);
    SkinCatchMisses(elementName);
  }

  /** Among the registrations, `selection-mod-key4.png` first matches rule 3. */
  lemma ManiaKeyIconFirstMatch(elementName: string)
    requires elementName == "selection-mod-key4.png"
    ensures FirstMatch(Categories, elementName) == Some(3)
  {
    ManiaKeyIconMissesEarlier(elementName);
    ManiaKeyIconListed(elementName);
    EarlyCategories();
    SkipRule(Categories, elementName, 0);
    SkipRule(Categories, elementName, 1);
    SkipRule(Categories, elementName, 2);
    StopAtRule(Categories, elementName, 3);
  }

  /** `selection-mod-key4.png` resolves to the mania rule: used exactly when some beatmap is mania or standard. */
  lemma ManiaKeyIconResolves(beatmapSet: BeatmapSet, cutPath: string -> string)
    ensures FirstMatch(Table(), "selection-mod-key4.png") == Some(3)
    ensures Used(Table(), "selection-mod-key4.png", beatmapSet, cutPath) <==>
      exists i :: 0 <= i < |beatmapSet.beatmaps| && beatmapSet.beatmaps[i].mode in {Mania, Standard}
  {
    ManiaKeyIconFirstMatch("selection-mod-key4.png");
    ResolvesTo("selection-mod-key4.png", 3, beatmapSet, cutPath);
    EarlyCategories();
    ManiaGate(SkinMania, beatmapSet, cutPath);
  }

  /** `scorebar-ki.png` matches no name of `Scorebar`: each differs from it at some lower-case position. */
  lemma ScorebarKiMissesScorebar(elementName: string)
    requires elementName == "scorebar-ki.png"
    ensures !AnyNameMatches(Scorebar, elementName)
  {
    assert |Scorebar| == 2;
    NoneMatchAt(Scorebar, elementName, 9);
  }

  /** `scorebar-ki.png` matches no name of `ScoreNumbers`: each differs from it at some lower-case position. */
  lemma ScorebarKiMissesScoreNumbers(elementName: string)
    requires elementName == "scorebar-ki.png"
    ensures !AnyNameMatches(ScoreNumbers, elementName)
  {
    assert |ScoreNumbers| == 14;
    NoneMatchAt(ScoreNumbers, elementName, 5);
  }

  /** `scorebar-ki.png` matches no name of `ScoreEntry`: each differs from it at some lower-case position. */
  lemma ScorebarKiMissesScoreEntry(elementName: string)
    requires elementName == "scorebar-ki.png"
    ensures !AnyNameMatches(ScoreEntry, elementName)
  {
    assert |ScoreEntry| == 14;
    NoneMatchAt(ScoreEntry, elementName, 5);
  }

  /** Rule 4 lists `scorebar-ki.png`. */
  lemma ScorebarKiListed(elementName: string)
    requires elementName == "scorebar-ki.png"
    ensures AnyNameMatches(SkinNotMania, elementName)
  {
    MatchesListed(SkinNotMania, 1, elementName);
  }

  /** `scorebar-ki.png` matches no rule registered before rule 4. */
  lemma ScorebarKiMissesEarlier(elementName: string)
    requires elementName == "scorebar-ki.png"
    ensures !AnyNameMatches(SkinGeneral, elementName) && !AnyNameMatches(SkinStandard, elementName)
    ensures !AnyNameMatches(SkinCatch, elementName) && !AnyNameMatches(SkinMania, elementName)
  {
    CursorMisses(elementName);
    PlayfieldMisses(elementName);
    PauseScreenMisses(elementName);
    ScorebarKiMissesScorebar(elementName);
    ScorebarKiMissesScoreNumbers(elementName);
    RankingGradesMisses(elementName);
    ScorebarKiMissesScoreEntry(elementName);
    SongSelectionMisses(elementName);
    ModIconsMisses(elementName);
    GameplaySoundsMisses(elementName);
    PauseSoundsMisses(elementName);
    SkinGeneralMatchesIff(elementName);
    SkinStandardMisses(elementName);
    SkinCatchMisses(elementName);
    SkinManiaMisses(elementName);
  }

  /** Among the registrations, `scorebar-ki.png` first matches rule 4. */
  lemma ScorebarKiFirstMatch(elementName: string)
    requires elementName == "scorebar-ki.png"
    ensures FirstMatch(Categories, elementName) == Some(4)
  {
    ScorebarKiMissesEarlier(elementName);
    ScorebarKiListed(elementName);
    EarlyCategories();
    MiddleCategories();
    SkipRule(Categories, elementName, 0);
    SkipRule(Categories, elementName, 1);
    SkipRule(Categories, elementName, 2);
    SkipRule(Categories, elementName, 3);
    StopAtRule(Categories, elementName, 4);
  }

  /** `scorebar-ki.png` resolves to the rule for everything but mania: used exactly when some beatmap is not mania. */
  lemma ScorebarKiResolves(beatmapSet: BeatmapSet, cutPath: string -> string)
    ensures FirstMatch(Table(), "scorebar-ki.png") == Some(4)
    ensures Used(Table(), "scorebar-ki.png", beatmapSet, cutPath) <==>
      exists i :: 0 <= i < |beatmapSet.beatmaps| && beatmapSet.beatmaps[i].mode != Mania
  {
    ScorebarKiFirstMatch("scorebar-ki.png");
    ResolvesTo("scorebar-ki.png", 4, beatmapSet, cutPath);
    MiddleCategories();
    NotManiaGate(SkinNotMania, beatmapSet, cutPath);
  }

  /** Rule 5 lists `count1.png`. */
  lemma CountOneListed(elementName: string)
    requires elementName == "count1.png"
    ensures AnyNameMatches(SkinCountdown, elementName)
  {
    MatchesListed(CountdownPlayfield, 0, elementName);
    SkinCountdownMatchesIff(elementName);
  }

  /** `count1.png` matches no rule registered before rule 5. */
  lemma CountOneMissesEarlier(elementName: string)
    requires elementName == "count1.png"
    ensures !AnyNameMatches(SkinGeneral, elementName) && !AnyNameMatches(SkinStandard, elementName)
    ensures !AnyNameMatches(SkinCatch, elementName) && !AnyNameMatches(SkinMania, elementName)
    ensures !AnyNameMatches(SkinNotMania, elementName)
  {
    SkinGeneralMisses(elementName);
    SkinStandardMisses(elementName);
    SkinCatchMisses(elementName);
    SkinManiaMisses(elementName);
    SkinNotManiaMisses(elementName);
  }

  /** Among the registrations, `count1.png` first matches rule 5. */
  lemma CountOneFirstMatch(elementName: string)
    requires elementName == "count1.png"
    ensures FirstMatch(Categories, elementName) == Some(5)
  {
    CountOneMissesEarlier(elementName);
    CountOneListed(elementName);
    EarlyCategories();
    MiddleCategories();
    SkipRule(Categories, elementName, 0);
    SkipRule(Categories, elementName, 1);
    SkipRule(Categories, elementName, 2);
    SkipRule(Categories, elementName, 3);
    SkipRule(Categories, elementName, 4);
    StopAtRule(Categories, elementName, 5);
  }

  /** `count1.png` resolves to the countdown rule: used exactly when some beatmap has a countdown. */
  lemma CountOneResolves(beatmapSet: BeatmapSet, cutPath: string -> string)
    ensures FirstMatch(Table(), "count1.png") == Some(5)
    ensures Used(Table(), "count1.png", beatmapSet, cutPath) <==>
      exists i :: 0 <= i < |beatmapSet.beatmaps| && beatmapSet.beatmaps[i].countdown > 0
  {
    CountOneFirstMatch("count1.png");
    ResolvesTo("count1.png", 5, beatmapSet, cutPath);
    MiddleCategories();
    CountdownGate(SkinCountdown, beatmapSet, cutPath);
  }

  /** Rule 6 lists `sliderstartcircleoverlay.png`. */
  lemma SliderStartCircleOverlayListed(elementName: string)
    requires elementName == "sliderstartcircleoverlay.png"
    ensures AnyNameMatches(SkinStandardSlider, elementName)
  {
    MatchesListed(SkinStandardSlider, 1, elementName);
  }

  /** `sliderstartcircleoverlay.png` matches no rule registered before rule 6. */
  lemma SliderStartCircleOverlayMissesEarlier(elementName: string)
    requires elementName == "sliderstartcircleoverlay.png"
    ensures !AnyNameMatches(SkinGeneral, elementName) && !AnyNameMatches(SkinStandard, elementName)
    ensures !AnyNameMatches(SkinCatch, elementName) && !AnyNameMatches(SkinMania, elementName)
    ensures !AnyNameMatches(SkinNotMania, elementName) && !AnyNameMatches(SkinCountdown, elementName)
  {
    SkinGeneralMisses(elementName);
    SkinStandardMisses(elementName);
    SkinCatchMisses(elementName);
    SkinManiaMisses(elementName);
    SkinNotManiaMisses(elementName);
    SkinCountdownMisses(elementName);
  }

  /** Among the registrations, `sliderstartcircleoverlay.png` first matches rule 6. */
  lemma SliderStartCircleOverlayFirstMatch(elementName: string)
    requires elementName == "sliderstartcircleoverlay.png"
    ensures FirstMatch(Categories, elementName) == Some(6)
  {
    SliderStartCircleOverlayMissesEarlier(elementName);
    SliderStartCircleOverlayListed(elementName);
    EarlyCategories();
    MiddleCategories();
    SkipRule(Categories, elementName, 0);
    SkipRule(Categories, elementName, 1);
    SkipRule(Categories, elementName, 2);
    SkipRule(Categories, elementName, 3);
    SkipRule(Categories, elementName, 4);
    SkipRule(Categories, elementName, 5);
    StopAtRule(Categories, elementName, 6);
  }

  /** `sliderstartcircleoverlay.png` resolves to the slider rule: used exactly when some beatmap has a slider. */
  lemma SliderStartCircleOverlayResolves(beatmapSet: BeatmapSet, cutPath: string -> string)
    ensures FirstMatch(Table(), "sliderstartcircleoverlay.png") == Some(6)
    ensures Used(Table(), "sliderstartcircleoverlay.png", beatmapSet, cutPath) <==>
      exists i, j :: 0 <= i < |beatmapSet.beatmaps| && 0 <= j < |beatmapSet.beatmaps[i].hitObjects| &&
                     beatmapSet.beatmaps[i].hitObjects[j].Slider?
  {
    SliderStartCircleOverlayFirstMatch("sliderstartcircleoverlay.png");
    ResolvesTo("sliderstartcircleoverlay.png", 6, beatmapSet, cutPath);
    MiddleCategories();
    SliderGate(SkinStandardSlider, beatmapSet, cutPath);
  }

  /** Rule 6 lists `sliderendcircleoverlay.png`. */
  lemma SliderEndCircleOverlayListed(elementName: string)
    requires elementName == "sliderendcircleoverlay.png"
    ensures AnyNameMatches(SkinStandardSlider, elementName)
  {
    MatchesListed(SkinStandardSlider, 4, elementName);
  }

  /** `sliderendcircleoverlay.png` matches no rule registered before rule 6. */
  lemma SliderEndCircleOverlayMissesEarlier(elementName: string)
    requires elementName == "sliderendcircleoverlay.png"
    ensures !AnyNameMatches(SkinGeneral, elementName) && !AnyNameMatches(SkinStandard, elementName)
    ensures !AnyNameMatches(SkinCatch, elementName) && !AnyNameMatches(SkinMania, elementName)
    ensures !AnyNameMatches(SkinNotMania, elementName) && !AnyNameMatches(SkinCountdown, elementName)
  {
    SkinGeneralMisses(elementName);
    SkinStandardMisses(elementName);
    SkinCatchMisses(elementName);
    SkinManiaMisses(elementName);
    SkinNotManiaMisses(elementName);
    SkinCountdownMisses(elementName);
  }

  /** Among the registrations, `sliderendcircleoverlay.png` first matches rule 6. */
  lemma SliderEndCircleOverlayFirstMatch(elementName: string)
    requires elementName == "sliderendcircleoverlay.png"
    ensures FirstMatch(Categories, elementName) == Some(6)
  {
    SliderEndCircleOverlayMissesEarlier(elementName);
    SliderEndCircleOverlayListed(elementName);
    EarlyCategories();
    MiddleCategories();
    SkipRule(Categories, elementName, 0);
    SkipRule(Categories, elementName, 1);
    SkipRule(Categories, elementName, 2);
    SkipRule(Categories, elementName, 3);
    SkipRule(Categories, elementName, 4);
    SkipRule(Categories, elementName, 5);
    StopAtRule(Categories, elementName, 6);
  }

  /** `sliderendcircleoverlay.png` resolves to the slider rule: used exactly when some beatmap has a slider. */
  lemma SliderEndCircleOverlayResolves(beatmapSet: BeatmapSet, cutPath: string -> string)
    ensures FirstMatch(Table(), "sliderendcircleoverlay.png") == Some(6)
    ensures Used(Table(), "sliderendcircleoverlay.png", beatmapSet, cutPath) <==>
      exists i, j :: 0 <= i < |beatmapSet.beatmaps| && 0 <= j < |beatmapSet.beatmaps[i].hitObjects| &&
                     beatmapSet.beatmaps[i].hitObjects[j].Slider?
  {
    SliderEndCircleOverlayFirstMatch("sliderendcircleoverlay.png");
    ResolvesTo("sliderendcircleoverlay.png", 6, beatmapSet, cutPath);
    MiddleCategories();
    SliderGate(SkinStandardSlider, beatmapSet, cutPath);
  }

  /** Rule 6 lists `sliderfollowcircle.png`. */
  lemma SliderFollowCircleListed(elementName: string)
    requires elementName == "sliderfollowcircle.png"
    ensures AnyNameMatches(SkinStandardSlider, elementName)
  {
    MatchesListed(SkinStandardSlider, 6, elementName);
  }

  /** `sliderfollowcircle.png` matches no rule registered before rule 6. */
  lemma SliderFollowCircleMissesEarlier(elementName: string)
    requires elementName == "sliderfollowcircle.png"
    ensures !AnyNameMatches(SkinGeneral, elementName) && !AnyNameMatches(SkinStandard, elementName)
    ensures !AnyNameMatches(SkinCatch, elementName) && !AnyNameMatches(SkinMania, elementName)
    ensures !AnyNameMatches(SkinNotMania, elementName) && !AnyNameMatches(SkinCountdown, elementName)
  {
    SkinGeneralMisses(elementName);
    SkinStandardMisses(elementName);
    SkinCatchMisses(elementName);
    SkinManiaMisses(elementName);
    SkinNotManiaMisses(elementName);
    SkinCountdownMisses(elementName);
  }

  /** Among the registrations, `sliderfollowcircle.png` first matches rule 6. */
  lemma SliderFollowCircleFirstMatch(elementName: string)
    requires elementName == "sliderfollowcircle.png"
    ensures FirstMatch(Categories, elementName) == Some(6)
  {
    SliderFollowCircleMissesEarlier(elementName);
    SliderFollowCircleListed(elementName);
    EarlyCategories();
    MiddleCategories();
    SkipRule(Categories, elementName, 0);
    SkipRule(Categories, elementName, 1);
    SkipRule(Categories, elementName, 2);
    SkipRule(Categories, elementName, 3);
    SkipRule(Categories, elementName, 4);
    SkipRule(Categories, elementName, 5);
    StopAtRule(Categories, elementName, 6);
  }

  /** `sliderfollowcircle.png` resolves to the slider rule: used exactly when some beatmap has a slider. */
  lemma SliderFollowCircleResolves(beatmapSet: BeatmapSet, cutPath: string -> string)
    ensures FirstMatch(Table(), "sliderfollowcircle.png") == Some(6)
    ensures Used(Table(), "sliderfollowcircle.png", beatmapSet, cutPath) <==>
      exists i, j :: 0 <= i < |beatmapSet.beatmaps| && 0 <= j < |beatmapSet.beatmaps[i].hitObjects| &&
                     beatmapSet.beatmaps[i].hitObjects[j].Slider?
  {
    SliderFollowCircleFirstMatch("sliderfollowcircle.png");
    ResolvesTo("sliderfollowcircle.png", 6, beatmapSet, cutPath);
    MiddleCategories();
    SliderGate(SkinStandardSlider, beatmapSet, cutPath);
  }

  /** Rule 7 lists `reversearrow.png`. */
  lemma ReverseArrowListed(elementName: string)
    requires elementName == "reversearrow.png"
    ensures AnyNameMatches(["reversearrow.png"], elementName)
  {
    MatchesListed(["reversearrow.png"], 0, elementName);
  }

  /** `reversearrow.png` matches no rule registered before rule 7. */
  lemma ReverseArrowMissesEarlier(elementName: string)
    requires elementName == "reversearrow.png"
    ensures !AnyNameMatches(SkinGeneral, elementName) && !AnyNameMatches(SkinStandard, elementName)
    ensures !AnyNameMatches(SkinCatch, elementName) && !AnyNameMatches(SkinMania, elementName)
    ensures !AnyNameMatches(SkinNotMania, elementName) && !AnyNameMatches(SkinCountdown, elementName)
    ensures !AnyNameMatches(SkinStandardSlider, elementName)
  {
    SkinGeneralMisses(elementName);
    SkinStandardMisses(elementName);
    SkinCatchMisses(elementName);
    SkinManiaMisses(elementName);
    SkinNotManiaMisses(elementName);
    SkinCountdownMisses(elementName);
    SkinStandardSliderMisses(elementName);
  }

  /** Among the registrations, `reversearrow.png` first matches rule 7. */
  lemma ReverseArrowFirstMatch(elementName: string)
    requires elementName == "reversearrow.png"
    ensures FirstMatch(Categories, elementName) == Some(7)
  {
    ReverseArrowMissesEarlier(elementName);
    ReverseArrowListed(elementName);
    EarlyCategories();
    MiddleCategories();
    SkipRule(Categories, elementName, 0);
    SkipRule(Categories, elementName, 1);
    SkipRule(Categories, elementName, 2);
    SkipRule(Categories, elementName, 3);
    SkipRule(Categories, elementName, 4);
    SkipRule(Categories, elementName, 5);
    SkipRule(Categories, elementName, 6);
    StopAtRule(Categories, elementName, 7);
  }

  /** `reversearrow.png` resolves to its own rule: used exactly when some slider has more than one edge. */
  lemma ReverseArrowResolves(beatmapSet: BeatmapSet, cutPath: string -> string)
    ensures FirstMatch(Table(), "reversearrow.png") == Some(7)
    ensures Used(Table(), "reversearrow.png", beatmapSet, cutPath) <==>
      exists i, j :: 0 <= i < |beatmapSet.beatmaps| && 0 <= j < |beatmapSet.beatmaps[i].hitObjects| &&
                     beatmapSet.beatmaps[i].hitObjects[j].Slider? && beatmapSet.beatmaps[i].hitObjects[j].edgeAmount > 1
  {
    ReverseArrowFirstMatch("reversearrow.png");
    ResolvesTo("reversearrow.png", 7, beatmapSet, cutPath);
    MiddleCategories();
    MultiEdgeSliderGate(["reversearrow.png"], beatmapSet, cutPath);
  }

  /** Rule 8 lists `spinner-osu.png`. */
  lemma SpinnerOsuListed(elementName: string)
    requires elementName == "spinner-osu.png"
    ensures AnyNameMatches(SkinStandardSpinner, elementName)
  {
    MatchesListed(OldSpinner, 3, elementName);
    SkinStandardSpinnerMatchesIff(elementName);
  }

  /** `spinner-osu.png` matches no rule registered before rule 8. */
  lemma SpinnerOsuMissesEarlier(elementName: string)
    requires elementName == "spinner-osu.png"
    ensures !AnyNameMatches(SkinGeneral, elementName) && !AnyNameMatches(SkinStandard, elementName)
    ensures !AnyNameMatches(SkinCatch, elementName) && !AnyNameMatches(SkinMania, elementName)
    ensures !AnyNameMatches(SkinNotMania, elementName) && !AnyNameMatches(SkinCountdown, elementName)
    ensures !AnyNameMatches(SkinStandardSlider, elementName) && !AnyNameMatches(["reversearrow.png"], elementName)
  {
    SkinGeneralMisses(elementName);
    SkinStandardMisses(elementName);
    SkinCatchMisses(elementName);
    SkinManiaMisses(elementName);
    SkinNotManiaMisses(elementName);
    SkinCountdownMisses(elementName);
    SkinStandardSliderMisses(elementName);
    NoneMatchByPrefix(["reversearrow.png"], elementName);
  }

  /** Among the registrations, `spinner-osu.png` first matches rule 8. */
  lemma SpinnerOsuFirstMatch(elementName: string)
    requires elementName == "spinner-osu.png"
    ensures FirstMatch(Categories, elementName) == Some(8)
  {
    SpinnerOsuMissesEarlier(elementName);
    SpinnerOsuListed(elementName);
    EarlyCategories();
    MiddleCategories();
    LateCategories();
    SkipRule(Categories, elementName, 0);
    SkipRule(Categories, elementName, 1);
    SkipRule(Categories, elementName, 2);
    SkipRule(Categories, elementName, 3);
    SkipRule(Categories, elementName, 4);
    SkipRule(Categories, elementName, 5);
    SkipRule(Categories, elementName, 6);
    SkipRule(Categories, elementName, 7);
    StopAtRule(Categories, elementName, 8);
  }

  /** `spinner-osu.png` resolves to the spinner rule: used exactly when some beatmap has a spinner. */
  lemma SpinnerOsuResolves(beatmapSet: BeatmapSet, cutPath: string -> string)
    ensures FirstMatch(Table(), "spinner-osu.png") == Some(8)
    ensures Used(Table(), "spinner-osu.png", beatmapSet, cutPath) <==>
      exists i, j :: 0 <= i < |beatmapSet.beatmaps| && 0 <= j < |beatmapSet.beatmaps[i].hitObjects| &&
                     beatmapSet.beatmaps[i].hitObjects[j].Spinner?
  {
    SpinnerOsuFirstMatch("spinner-osu.png");
    ResolvesTo("spinner-osu.png", 8, beatmapSet, cutPath);
    LateCategories();
    SpinnerGate(SkinStandardSpinner, beatmapSet, cutPath);
  }

  /** Rule 9 lists `section-pass.png`. */
  lemma SectionPassListed(elementName: string)
    requires elementName == "section-pass.png"
    ensures AnyNameMatches(SkinBreak, elementName)
  {
    MatchesListed(SkinBreak, 1, elementName);
  }

  /** `section-pass.png` matches no rule registered before rule 9. */
  lemma SectionPassMissesEarlier(elementName: string)
    requires elementName == "section-pass.png"
    ensures !AnyNameMatches(SkinGeneral, elementName) && !AnyNameMatches(SkinStandard, elementName)
    ensures !AnyNameMatches(SkinCatch, elementName) && !AnyNameMatches(SkinMania, elementName)
    ensures !AnyNameMatches(SkinNotMania, elementName) && !AnyNameMatches(SkinCountdown, elementName)
    ensures !AnyNameMatches(SkinStandardSlider, elementName) && !AnyNameMatches(["reversearrow.png"], elementName)
    ensures !AnyNameMatches(SkinStandardSpinner, elementName)
  {
    SkinGeneralMisses(elementName);
    SkinStandardMisses(elementName);
    SkinCatchMisses(elementName);
    SkinManiaMisses(elementName);
    SkinNotManiaMisses(elementName);
    SkinCountdownMisses(elementName);
    SkinStandardSliderMisses(elementName);
    NoneMatchByPrefix(["reversearrow.png"], elementName);
    SkinStandardSpinnerMisses(elementName);
  }

  /** Among the registrations, `section-pass.png` first matches rule 9. */
  lemma SectionPassFirstMatch(elementName: string)
    requires elementName == "section-pass.png"
    ensures FirstMatch(Categories, elementName) == Some(9)
  {
    SectionPassMissesEarlier(elementName);
    SectionPassListed(elementName);
    EarlyCategories();
    MiddleCategories();
    LateCategories();
    SkipRule(Categories, elementName, 0);
    SkipRule(Categories, elementName, 1);
    SkipRule(Categories, elementName, 2);
    SkipRule(Categories, elementName, 3);
    SkipRule(Categories, elementName, 4);
    SkipRule(Categories, elementName, 5);
    SkipRule(Categories, elementName, 6);
    SkipRule(Categories, elementName, 7);
    SkipRule(Categories, elementName, 8);
    StopAtRule(Categories, elementName, 9);
  }

  /** `section-pass.png` resolves to the break rule: used exactly when some beatmap has a break. */
  lemma SectionPassResolves(beatmapSet: BeatmapSet, cutPath: string -> string)
    ensures FirstMatch(Table(), "section-pass.png") == Some(9)
    ensures Used(Table(), "section-pass.png", beatmapSet, cutPath) <==>
      exists i :: 0 <= i < |beatmapSet.beatmaps| && beatmapSet.beatmaps[i].breaks != []
  {
    SectionPassFirstMatch("section-pass.png");
    ResolvesTo("section-pass.png", 9, beatmapSet, cutPath);
    LateCategories();
    BreakGate(SkinBreak, beatmapSet, cutPath);
  }

  /** Rule 11 lists `particle50.png`. */
  lemma Particle50Listed(elementName: string)
    requires elementName == "particle50.png"
    ensures AnyNameMatches(["particle50.png"], elementName)
  {
    MatchesListed(["particle50.png"], 0, elementName);
  }

  /** `particle50.png` matches no rule registered before rule 11. */
  lemma Particle50MissesEarlier(elementName: string)
    requires elementName == "particle50.png"
    ensures !AnyNameMatches(SkinGeneral, elementName) && !AnyNameMatches(SkinStandard, elementName)
    ensures !AnyNameMatches(SkinCatch, elementName) && !AnyNameMatches(SkinMania, elementName)
    ensures !AnyNameMatches(SkinNotMania, elementName) && !AnyNameMatches(SkinCountdown, elementName)
    ensures !AnyNameMatches(SkinStandardSlider, elementName) && !AnyNameMatches(["reversearrow.png"], elementName)
    ensures !AnyNameMatches(SkinStandardSpinner, elementName) && !AnyNameMatches(SkinBreak, elementName)
    ensures !AnyNameMatches(SkinNotSliderb, elementName)
  {
    SkinGeneralMisses(elementName);
    SkinStandardMisses(elementName);
    SkinCatchMisses(elementName);
    SkinManiaMisses(elementName);
    SkinNotManiaMisses(elementName);
    SkinCountdownMisses(elementName);
    SkinStandardSliderMisses(elementName);
    NoneMatchByPrefix(["reversearrow.png"], elementName);
    SkinStandardSpinnerMisses(elementName);
    SkinBreakMisses(elementName);
    SkinNotSliderbMisses(elementName);
  }

  /** Among the registrations, `particle50.png` first matches rule 11. */
  lemma Particle50FirstMatch(elementName: string)
    requires elementName == "particle50.png"
    ensures FirstMatch(Categories, elementName) == Some(11)
  {
    Particle50MissesEarlier(elementName);
    Particle50Listed(elementName);
    EarlyCategories();
    MiddleCategories();
    LateCategories();
    SkipRule(Categories, elementName, 0);
    SkipRule(Categories, elementName, 1);
    SkipRule(Categories, elementName, 2);
    SkipRule(Categories, elementName, 3);
    SkipRule(Categories, elementName, 4);
    SkipRule(Categories, elementName, 5);
    SkipRule(Categories, elementName, 6);
    SkipRule(Categories, elementName, 7);
    SkipRule(Categories, elementName, 8);
    SkipRule(Categories, elementName, 9);
    SkipRule(Categories, elementName, 10);
    StopAtRule(Categories, elementName, 11);
  }

  /** `particle50.png` resolves to its own rule: used exactly when some file of the set is `hit50.png`. */
  lemma Particle50Resolves(beatmapSet: BeatmapSet, cutPath: string -> string)
    ensures FirstMatch(Table(), "particle50.png") == Some(11)
    ensures Used(Table(), "particle50.png", beatmapSet, cutPath) <==>
      exists i :: 0 <= i < |beatmapSet.songFilePaths| && cutPath(beatmapSet.songFilePaths[i]) == "hit50.png"
  {
    Particle50FirstMatch("particle50.png");
    ResolvesTo("particle50.png", 11, beatmapSet, cutPath);
    LateCategories();
    PathGate(["particle50.png"], "hit50.png", beatmapSet, cutPath);
  }

  /** Rule 12 lists `particle100.png`. */
  lemma Particle100Listed(elementName: string)
    requires elementName == "particle100.png"
    ensures AnyNameMatches(["particle100.png"], elementName)
  {
    MatchesListed(["particle100.png"], 0, elementName);
  }

  /** `particle100.png` matches no rule registered before rule 12. */
  lemma Particle100MissesEarlier(elementName: string)
    requires elementName == "particle100.png"
    ensures !AnyNameMatches(SkinGeneral, elementName) && !AnyNameMatches(SkinStandard, elementName)
    ensures !AnyNameMatches(SkinCatch, elementName) && !AnyNameMatches(SkinMania, elementName)
    ensures !AnyNameMatches(SkinNotMania, elementName) && !AnyNameMatches(SkinCountdown, elementName)
    ensures !AnyNameMatches(SkinStandardSlider, elementName) && !AnyNameMatches(["reversearrow.png"], elementName)
    ensures !AnyNameMatches(SkinStandardSpinner, elementName) && !AnyNameMatches(SkinBreak, elementName)
    ensures !AnyNameMatches(SkinNotSliderb, elementName) && !AnyNameMatches(["particle50.png"], elementName)
  {
    SkinGeneralMisses(elementName);
    SkinStandardMisses(elementName);
    SkinCatchMisses(elementName);
    SkinManiaMisses(elementName);
    SkinNotManiaMisses(elementName);
    SkinCountdownMisses(elementName);
    SkinStandardSliderMisses(elementName);
    NoneMatchByPrefix(["reversearrow.png"], elementName);
    SkinStandardSpinnerMisses(elementName);
    SkinBreakMisses(elementName);
    SkinNotSliderbMisses(elementName);
    NoneMatchAt(["particle50.png"], elementName, 8);
  }

  /** Among the registrations, `particle100.png` first matches rule 12. */
  lemma Particle100FirstMatch(elementName: string)
    requires elementName == "particle100.png"
    ensures FirstMatch(Categories, elementName) == Some(12)
  {
    Particle100MissesEarlier(elementName);
    Particle100Listed(elementName);
    EarlyCategories();
    MiddleCategories();
    LateCategories();
    SkipRule(Categories, elementName, 0);
    SkipRule(Categories, elementName, 1);
    SkipRule(Categories, elementName, 2);
    SkipRule(Categories, elementName, 3);
    SkipRule(Categories, elementName, 4);
    SkipRule(Categories, elementName, 5);
    SkipRule(Categories, elementName, 6);
    SkipRule(Categories, elementName, 7);
    SkipRule(Categories, elementName, 8);
    SkipRule(Categories, elementName, 9);
    SkipRule(Categories, elementName, 10);
    SkipRule(Categories, elementName, 11);
    StopAtRule(Categories, elementName, 12);
  }

  /** `particle100.png` resolves to its own rule: used exactly when some file of the set is `hit100.png`. */
  lemma Particle100Resolves(beatmapSet: BeatmapSet, cutPath: string -> string)
    ensures FirstMatch(Table(), "particle100.png") == Some(12)
    ensures Used(Table(), "particle100.png", beatmapSet, cutPath) <==>
      exists i :: 0 <= i < |beatmapSet.songFilePaths| && cutPath(beatmapSet.songFilePaths[i]) == "hit100.png"
  {
    Particle100FirstMatch("particle100.png");
    ResolvesTo("particle100.png", 12, beatmapSet, cutPath);
    LateCategories();
    PathGate(["particle100.png"], "hit100.png", beatmapSet, cutPath);
  }

  /** Rule 13 lists `particle300.png`. */
  lemma Particle300Listed(elementName: string)
    requires elementName == "particle300.png"
    ensures AnyNameMatches(["particle300.png"], elementName)
  {
    MatchesListed(["particle300.png"], 0, elementName);
  }

  /** `particle300.png` matches no rule registered before rule 13. */
  lemma Particle300MissesEarlier(elementName: string)
    requires elementName == "particle300.png"
    ensures !AnyNameMatches(SkinGeneral, elementName) && !AnyNameMatches(SkinStandard, elementName)
    ensures !AnyNameMatches(SkinCatch, elementName) && !AnyNameMatches(SkinMania, elementName)
    ensures !AnyNameMatches(SkinNotMania, elementName) && !AnyNameMatches(SkinCountdown, elementName)
    ensures !AnyNameMatches(SkinStandardSlider, elementName) && !AnyNameMatches(["reversearrow.png"], elementName)
    ensures !AnyNameMatches(SkinStandardSpinner, elementName) && !AnyNameMatches(SkinBreak, elementName)
    ensures !AnyNameMatches(SkinNotSliderb, elementName) && !AnyNameMatches(["particle50.png"], elementName)
    ensures !AnyNameMatches(["particle100.png"], elementName)
  {
    SkinGeneralMisses(elementName);
    SkinStandardMisses(elementName);
    SkinCatchMisses(elementName);
    SkinManiaMisses(elementName);
    SkinNotManiaMisses(elementName);
    SkinCountdownMisses(elementName);
    SkinStandardSliderMisses(elementName);
    NoneMatchByPrefix(["reversearrow.png"], elementName);
    SkinStandardSpinnerMisses(elementName);
    SkinBreakMisses(elementName);
    SkinNotSliderbMisses(elementName);
    NoneMatchAt(["particle50.png"], elementName, 8);
    NoneMatchAt(["particle100.png"], elementName, 8);
  }

  /** Among the registrations, `particle300.png` first matches rule 13. */
  lemma Particle300FirstMatch(elementName: string)
    requires elementName == "particle300.png"
    ensures FirstMatch(Categories, elementName) == Some(13)
  {
    Particle300MissesEarlier(elementName);
    Particle300Listed(elementName);
    EarlyCategories();
    MiddleCategories();
    LateCategories();
    SkipRule(Categories, elementName, 0);
    SkipRule(Categories, elementName, 1);
    SkipRule(Categories, elementName, 2);
    SkipRule(Categories, elementName, 3);
    SkipRule(Categories, elementName, 4);
    SkipRule(Categories, elementName, 5);
    SkipRule(Categories, elementName, 6);
    SkipRule(Categories, elementName, 7);
    SkipRule(Categories, elementName, 8);
    SkipRule(Categories, elementName, 9);
    SkipRule(Categories, elementName, 10);
    SkipRule(Categories, elementName, 11);
    SkipRule(Categories, elementName, 12);
    StopAtRule(Categories, elementName, 13);
  }

  /** `particle300.png` resolves to its own rule: used exactly when some file of the set is `hit300.png`. */
  lemma Particle300Resolves(beatmapSet: BeatmapSet, cutPath: string -> string)
    ensures FirstMatch(Table(), "particle300.png") == Some(13)
    ensures Used(Table(), "particle300.png", beatmapSet, cutPath) <==>
      exists i :: 0 <= i < |beatmapSet.songFilePaths| && cutPath(beatmapSet.songFilePaths[i]) == "hit300.png"
  {
    Particle300FirstMatch("particle300.png");
    ResolvesTo("particle300.png", 13, beatmapSet, cutPath);
    LateCategories();
    PathGate(["particle300.png"], "hit300.png", beatmapSet, cutPath);
  }

  /** `hit300.png` matches no name of `HitBursts`: each differs from it at some lower-case position. */
  lemma Hit300MissesHitBursts(elementName: string)
    requires elementName == "hit300.png"
    ensures !AnyNameMatches(HitBursts, elementName)
  {
    assert |HitBursts| == 7;
    NoneMatchBeforeBrace(HitBursts, elementName, [3, 3, 3, 3, 6, 6, 6]);
  }

  /** `hit300.png` matches no name of `HitCircles`: each differs from it at some lower-case position. */
  lemma Hit300MissesHitCircles(elementName: string)
    requires elementName == "hit300.png"
    ensures !AnyNameMatches(HitCircles, elementName)
  {
    assert |HitCircles| == 8;
    NoneMatchBeforeBrace(HitCircles, elementName, [0, 3, 3, 3, 3, 0, 0, 0]);
  }

  /** `hit300.png` matches none of the registrations. */
  lemma Hit300MissesCategories(elementName: string)
    requires elementName == "hit300.png"
    ensures !AnyNameMatches(SkinGeneral, elementName) && !AnyNameMatches(SkinStandard, elementName)
    ensures !AnyNameMatches(SkinCatch, elementName) && !AnyNameMatches(SkinMania, elementName)
    ensures !AnyNameMatches(SkinNotMania, elementName) && !AnyNameMatches(SkinCountdown, elementName)
    ensures !AnyNameMatches(SkinStandardSlider, elementName) && !AnyNameMatches(["reversearrow.png"], elementName)
    ensures !AnyNameMatches(SkinStandardSpinner, elementName) && !AnyNameMatches(SkinBreak, elementName)
    ensures !AnyNameMatches(SkinNotSliderb, elementName) && !AnyNameMatches(["particle50.png"], elementName)
    ensures !AnyNameMatches(["particle100.png"], elementName) && !AnyNameMatches(["particle300.png"], elementName)
  {
    SkinGeneralMisses(elementName);
    Hit300MissesHitBursts(elementName);
    ModIconExceptionsMisses(elementName);
    ComboBurstMisses(elementName);
    DefaultNumbersMisses(elementName);
    Hit300MissesHitCircles(elementName);
    SkinStandardMatchesIff(elementName);
    SkinCatchMisses(elementName);
    SkinManiaMisses(elementName);
    SkinNotManiaMisses(elementName);
    SkinCountdownMisses(elementName);
    SkinStandardSliderMisses(elementName);
    NoneMatchByPrefix(["reversearrow.png"], elementName);
    SkinStandardSpinnerMisses(elementName);
    SkinBreakMisses(elementName);
    SkinNotSliderbMisses(elementName);
    NoneMatchByPrefix(["particle50.png"], elementName);
    NoneMatchByPrefix(["particle100.png"], elementName);
    NoneMatchByPrefix(["particle300.png"], elementName);
  }
  // Which names have no still frame matching a query, judged by their first character.

  lemma CursorStillsMiss(elementName: string)
    requires Plain3(elementName) && elementName[0] != 'c'
    ensures StillsMiss(Cursor, elementName)
  {
    assert |Cursor| == 4;
    StillsMissByFirst(Cursor, elementName);
  }

  lemma PlayfieldStillsMiss(elementName: string)
    requires Plain3(elementName) && elementName[0] != 'p' && elementName[0] != 'm'
    ensures StillsMiss(Playfield, elementName)
  {
    assert |Playfield| == 3;
    StillsMissByFirst(Playfield, elementName);
  }

  lemma PauseScreenStillsMiss(elementName: string)
    requires Plain3(elementName) && elementName[0] != 'p' && elementName[0] != 'f'
    ensures StillsMiss(PauseScreen, elementName)
  {
    assert |PauseScreen| == 8;
    StillsMissByFirst(PauseScreen, elementName);
  }

  lemma ScorebarStillsMiss(elementName: string)
    requires Plain3(elementName) && elementName[0] != 's'
    ensures StillsMiss(Scorebar, elementName)
  {
    assert |Scorebar| == 2;
    StillsMissByFirst(Scorebar, elementName);
  }

  lemma ScoreNumbersStillsMiss(elementName: string)
    requires Plain3(elementName) && elementName[0] != 's'
    ensures StillsMiss(ScoreNumbers, elementName)
  {
    assert |ScoreNumbers| == 14;
    StillsMissByFirst(ScoreNumbers, elementName);
  }

  lemma RankingGradesStillsMiss(elementName: string)
    requires Plain3(elementName) && elementName[0] != 'r'
    ensures StillsMiss(RankingGrades, elementName)
  {
    assert |RankingGrades| == 8;
    StillsMissByFirst(RankingGrades, elementName);
  }

  lemma ScoreEntryStillsMiss(elementName: string)
    requires Plain3(elementName) && elementName[0] != 's'
    ensures StillsMiss(ScoreEntry, elementName)
  {
    assert |ScoreEntry| == 14;
    StillsMissByFirst(ScoreEntry, elementName);
  }

  lemma SongSelectionStillsMiss(elementName: string)
    requires Plain3(elementName) && elementName[0] != 'm' && elementName[0] != 's'
    ensures StillsMiss(SongSelection, elementName)
  {
    assert |SongSelection| == 3;
    StillsMissByFirst(SongSelection, elementName);
  }

  lemma ModIconsStillsMiss(elementName: string)
    requires Plain3(elementName) && elementName[0] != 's'
    ensures StillsMiss(ModIcons, elementName)
  {
    assert |ModIcons| == 12;
    StillsMissByFirst(ModIcons, elementName);
  }

  lemma GameplaySoundsStillsMiss(elementName: string)
    requires Plain3(elementName) && elementName[0] != 'a' && elementName[0] != 'c' && elementName[0] != 'f'
    ensures StillsMiss(GameplaySounds, elementName)
  {
    assert |GameplaySounds| == 12;
    StillsMissByFirst(GameplaySounds, elementName);
  }

  lemma PauseSoundsStillsMiss(elementName: string)
    requires Plain3(elementName) && elementName[0] != 'p'
    ensures StillsMiss(PauseSounds, elementName)
  {
    assert |PauseSounds| == 3;
    StillsMissByFirst(PauseSounds, elementName);
  }

  /** No name of `SkinGeneral` gives a still frame matching a query whose first character none of them
      shares. */
  lemma SkinGeneralStillsMiss(elementName: string)
    requires Plain3(elementName) && elementName[0] != 'c' && elementName[0] != 'p' && elementName[0] != 'm' && elementName[0] != 'f' && elementName[0] != 's' && elementName[0] != 'r' && elementName[0] != 'a'
    ensures StillsMiss(SkinGeneral, elementName)
  {
    CursorStillsMiss(elementName);
    PlayfieldStillsMiss(elementName);
    PauseScreenStillsMiss(elementName);
    ScorebarStillsMiss(elementName);
    ScoreNumbersStillsMiss(elementName);
    RankingGradesStillsMiss(elementName);
    ScoreEntryStillsMiss(elementName);
    SongSelectionStillsMiss(elementName);
    ModIconsStillsMiss(elementName);
    GameplaySoundsStillsMiss(elementName);
    PauseSoundsStillsMiss(elementName);
    StillsMissAppend(Cursor, Playfield, elementName);
    StillsMissAppend(Cursor + Playfield, PauseScreen, elementName);
    StillsMissAppend(Cursor + Playfield + PauseScreen, Scorebar, elementName);
    StillsMissAppend(Cursor + Playfield + PauseScreen + Scorebar, ScoreNumbers, elementName);
    StillsMissAppend(Cursor + Playfield + PauseScreen + Scorebar + ScoreNumbers, RankingGrades, elementName);
    StillsMissAppend(Cursor + Playfield + PauseScreen + Scorebar + ScoreNumbers + RankingGrades, ScoreEntry, elementName);
    StillsMissAppend(Cursor + Playfield + PauseScreen + Scorebar + ScoreNumbers + RankingGrades + ScoreEntry, SongSelection, elementName);
    StillsMissAppend(Cursor + Playfield + PauseScreen + Scorebar + ScoreNumbers + RankingGrades + ScoreEntry + SongSelection, ModIcons, elementName);
    StillsMissAppend(Cursor + Playfield + PauseScreen + Scorebar + ScoreNumbers + RankingGrades + ScoreEntry + SongSelection + ModIcons, GameplaySounds, elementName);
    StillsMissAppend(Cursor + Playfield + PauseScreen + Scorebar + ScoreNumbers + RankingGrades + ScoreEntry + SongSelection + ModIcons + GameplaySounds, PauseSounds, elementName);
  }
  // The derivation pass over the registrations.

  /** Every rule after the fourteen registrations is a still-frame rule whose animated version an earlier
      rule lists. */
  lemma DerivedRulesAreStillFrames(k: nat)
    requires |Categories| <= k < |Table()|
    ensures IsStillFrameRule(Table()[k])
    ensures exists i :: 0 <= i < k && AnimatedVersion(Table()[k].elementNames[0]) in Table()[i].elementNames
  {
    CategoriesHaveDot();
    FlattenHasDot(Categories);
    DeriveShape(Categories, Flatten(Categories));
    assert DerivedRuleAt(Table(), k);
  }

  /** A still frame `a + b` of an animated name `a + "-{n}" + b`: brace-free, with its first '.' starting `b`. */
  predicate StillFramePieces(a: string, b: string) {
    '{' !in a && '{' !in b && '.' !in a && b != [] && b[0] == '.'
  }

  /** A registered animated name `a + "-{n}" + b` gives the table a rule for its still frame `a + b`, gated
      on no file being a frame of the animated name, whatever the registering rule's own gate is. */
  lemma TableHasStillFrame(a: string, b: string, k: nat)
    requires StillFramePieces(a, b)
    requires k < |Categories| && a + "-{n}" + b in Categories[k].elementNames
    ensures SkinCondition([a + b], Some(NoFrameOf(a + "-{n}" + b))) in Table()
  {
    CategoriesHaveDot();
    FlattenHasDot(Categories);
    FlattenContains(Categories, a + "-{n}" + b);
    DeriveHasStillFrame(Categories, Flatten(Categories), a, b);
  }

  lemma Hit300Pieces()
    ensures StillFramePieces("hit300", ".png")
    ensures "hit300" + "-{n}" + ".png" == "hit300-{n}.png" && "hit300" + ".png" == "hit300.png"
  {
  }

  lemma ComboBurstPieces()
    ensures StillFramePieces("comboburst", ".png")
    ensures "comboburst" + "-{n}" + ".png" == "comboburst-{n}.png" && "comboburst" + ".png" == "comboburst.png"
  {
  }

  lemma HitCircleOverlayPieces()
    ensures StillFramePieces("hitcircleoverlay", ".png")
    ensures "hitcircleoverlay" + "-{n}" + ".png" == "hitcircleoverlay-{n}.png" && "hitcircleoverlay" + ".png" == "hitcircleoverlay.png"
  {
  }

  lemma FollowPointPieces()
    ensures StillFramePieces("followpoint", ".png")
    ensures "followpoint" + "-{n}" + ".png" == "followpoint-{n}.png" && "followpoint" + ".png" == "followpoint.png"
  {
  }

  lemma SliderStartCircleOverlayPieces()
    ensures StillFramePieces("sliderstartcircleoverlay", ".png")
    ensures "sliderstartcircleoverlay" + "-{n}" + ".png" == "sliderstartcircleoverlay-{n}.png" && "sliderstartcircleoverlay" + ".png" == "sliderstartcircleoverlay.png"
  {
  }

  lemma SliderEndCircleOverlayPieces()
    ensures StillFramePieces("sliderendcircleoverlay", ".png")
    ensures "sliderendcircleoverlay" + "-{n}" + ".png" == "sliderendcircleoverlay-{n}.png" && "sliderendcircleoverlay" + ".png" == "sliderendcircleoverlay.png"
  {
  }

  lemma SliderFollowCirclePieces()
    ensures StillFramePieces("sliderfollowcircle", ".png")
    ensures "sliderfollowcircle" + "-{n}" + ".png" == "sliderfollowcircle-{n}.png" && "sliderfollowcircle" + ".png" == "sliderfollowcircle.png"
  {
  }

  /** `hit300.png` matches none of the fourteen registrations. */
  lemma Hit300MissesRegistrations(elementName: string)
    requires elementName == "hit300.png"
    ensures FirstMatch(Categories, elementName) == None
  {
    Hit300MissesCategories(elementName);
    EarlyCategories();
    MiddleCategories();
    LateCategories();
    SkipRule(Categories, elementName, 0);
    SkipRule(Categories, elementName, 1);
    SkipRule(Categories, elementName, 2);
    SkipRule(Categories, elementName, 3);
    SkipRule(Categories, elementName, 4);
    SkipRule(Categories, elementName, 5);
    SkipRule(Categories, elementName, 6);
    SkipRule(Categories, elementName, 7);
    SkipRule(Categories, elementName, 8);
    SkipRule(Categories, elementName, 9);
    SkipRule(Categories, elementName, 10);
    SkipRule(Categories, elementName, 11);
    SkipRule(Categories, elementName, 12);
    SkipRule(Categories, elementName, 13);
  }

  /** No name the derivation loop visits before `hit300-{n}.png` (the general names and the first four hit
      bursts, `hit0-{n}.png` to `hit100k-{n}.png`) gives a still frame that matches `hit300.png`. */
  lemma Hit300StillsMissBefore(elementName: string)
    requires elementName == "hit300.png"
    ensures StillsMiss(SkinGeneral + HitBursts[..4], elementName)
  {
    SkinGeneralStillsMiss(elementName);
    assert |HitBursts| == 7;
    StillsMissAt(HitBursts[..4], elementName, 3);
    StillsMissAppend(SkinGeneral, HitBursts[..4], elementName);
  }

  /** The names the derivation loop visits, split at `hit300-{n}.png`. */
  lemma Hit300Split()
    ensures Flatten(Categories) == (SkinGeneral + HitBursts[..4]) + [HitBursts[4]] + Hit300After()
  {
    EarlyCategories();
    FlattenFirstTwo(Categories);
    RegroupAt(SkinGeneral, HitBursts, ModIconExceptions, ComboBurst, DefaultNumbers, HitCircles, Flatten(Categories[2..]), 4);
  }

  /** Regrouping `g + (hb + m + cb + dn + hc) + rest` around the element `hb[i]`. */
  lemma RegroupAt(g: seq<string>, hb: seq<string>, m: seq<string>, cb: seq<string>, dn: seq<string>,
                  hc: seq<string>, rest: seq<string>, i: nat)
    requires i < |hb|
    ensures g + (hb + m + cb + dn + hc) + rest == (g + hb[..i]) + [hb[i]] + (hb[i + 1..] + m + cb + dn + hc + rest)
  {
    assert hb == hb[..i] + [hb[i]] + hb[i + 1..];
  }

  /** What the derivation pass needs to know about `hit300.png` and the standard rule's animated name
      `a + "-{n}" + b`. */
  lemma Hit300Premises(a: string, b: string, elementName: string)
    requires a == "hit300" && b == ".png" && elementName == "hit300.png"
    ensures StillFramePieces(a, b) && LiteralMatch(a + b, elementName)
    ensures Flatten(Categories) == (SkinGeneral + HitBursts[..4]) + [a + "-{n}" + b] + Hit300After()
    ensures FirstMatch(Categories, elementName) == None && StillsMiss(SkinGeneral + HitBursts[..4], elementName)
    ensures 1 < |Categories| && a + "-{n}" + b in Categories[1].elementNames
  {
    Hit300Pieces();
    Hit300Split();
    Hit300MissesRegistrations(elementName);
    Hit300StillsMissBefore(elementName);
    EarlyCategories();
    assert HitBursts[4] in Categories[1].elementNames;
  }

  /** The names the derivation loop visits after `hit300-{n}.png`. */
  function Hit300After(): seq<string> {
    HitBursts[5..] + ModIconExceptions + ComboBurst + DefaultNumbers + HitCircles + Flatten(Categories[2..])
  }

  /** `hit300.png`, the still frame `a + b` of the standard rule's `a + "-{n}" + b`, reaches its still-frame
      rule. */
  lemma Hit300ReachesStill(a: string, b: string, elementName: string)
    requires a == "hit300" && b == ".png" && elementName == "hit300.png"
    ensures exists k :: |Categories| <= k < |Table()| && FirstMatch(Table(), elementName) == Some(k) &&
                        Table()[k] == SkinCondition([a + b], Some(NoFrameOf(a + "-{n}" + b)))
  {
    Hit300Premises(a, b, elementName);
    TableReachesStill(SkinGeneral + HitBursts[..4], a, b, Hit300After(), elementName);
  }

  /** `hit300.png` is a still frame that no registration lists: the query reaches the rule that the
      standard rule's `hit300-{n}.png` gives it, and that rule is the first to match. */
  lemma Hit300StillFrame()
    ensures exists k :: |Categories| <= k < |Table()| && FirstMatch(Table(), "hit300.png") == Some(k) &&
                        Table()[k] == SkinCondition(["hit300.png"], Some(NoFrameOf("hit300-{n}.png")))
  {
    Hit300Pieces();
    Hit300ReachesStill("hit300", ".png", "hit300.png");
  }

  /** So `hit300.png` is used exactly when no file of the set is a frame of `hit300-{n}.png`, whatever the
      beatmaps' modes: the standard rule's gate plays no part. */
  lemma Hit300Resolves(beatmapSet: BeatmapSet, cutPath: string -> string)
    ensures Used(Table(), "hit300.png", beatmapSet, cutPath) <==>
      forall i :: 0 <= i < |beatmapSet.songFilePaths| ==> !IsAnimationFrameOf(cutPath(beatmapSet.songFilePaths[i]), "hit300-{n}.png")
  {
    Hit300StillFrame();
    var k :| |Categories| <= k < |Table()| && FirstMatch(Table(), "hit300.png") == Some(k) &&
             Table()[k] == SkinCondition(["hit300.png"], Some(NoFrameOf("hit300-{n}.png")));
    UsedAtStillFrame(Table(), "hit300.png", k, "hit300-{n}.png", beatmapSet, cutPath);
  }

  /** The standard rule's `comboburst-{n}.png` gives a still-frame rule for `comboburst.png`, yet that rule
      is never consulted: the standard rule, which lists `comboburst.png` itself, matches first. */
  lemma ComboBurstStillFrameShadowed(beatmapSet: BeatmapSet, cutPath: string -> string)
    ensures SkinCondition(["comboburst.png"], Some(NoFrameOf("comboburst-{n}.png"))) in Table()
    ensures FirstMatch(Table(), "comboburst.png") == Some(1)
    ensures Used(Table(), "comboburst.png", beatmapSet, cutPath) <==>
      exists i :: 0 <= i < |beatmapSet.beatmaps| && beatmapSet.beatmaps[i].mode == Standard
  {
    ComboBurstPieces();
    EarlyCategories();
    assert ComboBurst[1] in SkinStandard;
    TableHasStillFrame("comboburst", ".png", 1);
    ComboBurstResolves(beatmapSet, cutPath);
  }

  /** Likewise `hitcircleoverlay.png`: its still-frame rule exists but the standard rule matches first. */
  lemma HitCircleOverlayStillFrameShadowed(beatmapSet: BeatmapSet, cutPath: string -> string)
    ensures SkinCondition(["hitcircleoverlay.png"], Some(NoFrameOf("hitcircleoverlay-{n}.png"))) in Table()
    ensures FirstMatch(Table(), "hitcircleoverlay.png") == Some(1)
    ensures Used(Table(), "hitcircleoverlay.png", beatmapSet, cutPath) <==>
      exists i :: 0 <= i < |beatmapSet.beatmaps| && beatmapSet.beatmaps[i].mode == Standard
  {
    HitCircleOverlayPieces();
    EarlyCategories();
    assert HitCircles[3] in SkinStandard;
    TableHasStillFrame("hitcircleoverlay", ".png", 1);
    HitCircleOverlayResolves(beatmapSet, cutPath);
  }

  /** Likewise `followpoint.png`: its still-frame rule exists but the standard rule matches first. */
  lemma FollowPointStillFrameShadowed(beatmapSet: BeatmapSet, cutPath: string -> string)
    ensures SkinCondition(["followpoint.png"], Some(NoFrameOf("followpoint-{n}.png"))) in Table()
    ensures FirstMatch(Table(), "followpoint.png") == Some(1)
    ensures Used(Table(), "followpoint.png", beatmapSet, cutPath) <==>
      exists i :: 0 <= i < |beatmapSet.beatmaps| && beatmapSet.beatmaps[i].mode == Standard
  {
    FollowPointPieces();
    EarlyCategories();
    assert HitCircles[6] in SkinStandard;
    TableHasStillFrame("followpoint", ".png", 1);
    FollowPointResolves(beatmapSet, cutPath);
  }

  /** Likewise `sliderstartcircleoverlay.png`: the slider rule lists it and matches first. */
  lemma SliderStartCircleOverlayStillFrameShadowed(beatmapSet: BeatmapSet, cutPath: string -> string)
    ensures SkinCondition(["sliderstartcircleoverlay.png"], Some(NoFrameOf("sliderstartcircleoverlay-{n}.png"))) in Table()
    ensures FirstMatch(Table(), "sliderstartcircleoverlay.png") == Some(6)
    ensures Used(Table(), "sliderstartcircleoverlay.png", beatmapSet, cutPath) <==>
      exists i, j :: 0 <= i < |beatmapSet.beatmaps| && 0 <= j < |beatmapSet.beatmaps[i].hitObjects| &&
                     beatmapSet.beatmaps[i].hitObjects[j].Slider?
  {
    SliderStartCircleOverlayPieces();
    MiddleCategories();
    assert SkinStandardSlider[2] in SkinStandardSlider;
    TableHasStillFrame("sliderstartcircleoverlay", ".png", 6);
    SliderStartCircleOverlayResolves(beatmapSet, cutPath);
  }

  /** Likewise `sliderendcircleoverlay.png`: the slider rule lists it and matches first. */
  lemma SliderEndCircleOverlayStillFrameShadowed(beatmapSet: BeatmapSet, cutPath: string -> string)
    ensures SkinCondition(["sliderendcircleoverlay.png"], Some(NoFrameOf("sliderendcircleoverlay-{n}.png"))) in Table()
    ensures FirstMatch(Table(), "sliderendcircleoverlay.png") == Some(6)
    ensures Used(Table(), "sliderendcircleoverlay.png", beatmapSet, cutPath) <==>
      exists i, j :: 0 <= i < |beatmapSet.beatmaps| && 0 <= j < |beatmapSet.beatmaps[i].hitObjects| &&
                     beatmapSet.beatmaps[i].hitObjects[j].Slider?
  {
    SliderEndCircleOverlayPieces();
    MiddleCategories();
    assert SkinStandardSlider[5] in SkinStandardSlider;
    TableHasStillFrame("sliderendcircleoverlay", ".png", 6);
    SliderEndCircleOverlayResolves(beatmapSet, cutPath);
  }

  /** Likewise `sliderfollowcircle.png`: the slider rule lists it and matches first. */
  lemma SliderFollowCircleStillFrameShadowed(beatmapSet: BeatmapSet, cutPath: string -> string)
    ensures SkinCondition(["sliderfollowcircle.png"], Some(NoFrameOf("sliderfollowcircle-{n}.png"))) in Table()
    ensures FirstMatch(Table(), "sliderfollowcircle.png") == Some(6)
    ensures Used(Table(), "sliderfollowcircle.png", beatmapSet, cutPath) <==>
      exists i, j :: 0 <= i < |beatmapSet.beatmaps| && 0 <= j < |beatmapSet.beatmaps[i].hitObjects| &&
                     beatmapSet.beatmaps[i].hitObjects[j].Slider?
  {
    SliderFollowCirclePieces();
    MiddleCategories();
    assert SkinStandardSlider[7] in SkinStandardSlider;
    TableHasStillFrame("sliderfollowcircle", ".png", 6);
    SliderFollowCircleResolves(beatmapSet, cutPath);
  }

  /** The template `sliderb{n}.png` holds no `-{n}`, so the derivation pass adds no still frame for it. */
  lemma SliderbTemplateHasNoStillFrame(current: seq<SkinCondition>)
    ensures StillFrameStep(current, "sliderb{n}.png") == []
  {
    NoDashNoStillFrame(current, "sliderb{n}.png");
  }

  // The matchers on sample names.

  /** A template's frame need not be digits: `sliderb{n}.png` matches `sliderb-nd.png` with frame `-nd`. */
  lemma TemplateFrameNeedNotBeDigits(otherElementName: string, elementName: string)
    requires otherElementName == "sliderb{n}.png" && elementName == "sliderb-nd.png"
    ensures TemplateMatch(otherElementName, elementName)
  {
    var x, y, f := "sliderb", ".png", "-nd";
    SliderbPieces(x, y, f);
    SplitNameMatchesTemplate(x, y, f);
  }

  /** The pieces of `sliderb{n}.png` around the placeholder and the frame `-nd`, all lower case. */
  lemma SliderbPieces(x: string, y: string, f: string)
    requires x == "sliderb" && y == ".png" && f == "-nd"
    ensures '{' !in x && '{' !in y && y != [] && y[0] == '.' && '.' !in f
    ensures Lower(x) == x && Lower(y) == y && Lower(f) == f
    ensures x + "{n}" + y == "sliderb{n}.png" && x + f + y == "sliderb-nd.png"
  {
    LowerNoUpper(x);
    LowerNoUpper(y);
    LowerNoUpper(f);
  }

  /** The pieces of `hit300-{n}.png` around the placeholder, their lower-case forms, and the sample names
      built from them. */
  lemma Hit300FramePieces(x: string, y: string)
    requires x == "hit300-" && y == ".png"
    ensures '{' !in x && '{' !in y && y[0] == '.' && Lower(x) == x && Lower(y) == y
    ensures x + "{n}" + y == "hit300-{n}.png"
    ensures x + "5" + y == "hit300-5.png" && x + "" + y == "hit300-.png"
    ensures AllDigits("5") && AllDigits("") && Lower("5") == "5"
  {
    LowerNoUpper(x);
    LowerNoUpper(y);
    LowerNoUpper("5");
  }

  /** The template `hit300-{n}.png` matches the lower-case `hit300-5.png`. */
  lemma TemplateMatchesLowerCaseFrame(otherElementName: string, elementName: string)
    requires otherElementName == "hit300-{n}.png" && elementName == "hit300-5.png"
    ensures TemplateMatch(otherElementName, elementName)
  {
    var x, y, f := "hit300-", ".png", "5";
    Hit300FramePieces(x, y);
    SplitNameMatchesTemplate(x, y, f);
  }

  /** Template matching is case-sensitive on the queried name: `hit300-{n}.png` does not match
      `HIT300-5.png`. */
  lemma TemplateMissesUpperCaseFrame(otherElementName: string, elementName: string)
    requires otherElementName == "hit300-{n}.png" && elementName == "HIT300-5.png"
    ensures !TemplateMatch(otherElementName, elementName)
  {
    TemplateMatchIsLowerCase(otherElementName, elementName);
    assert Lower(elementName)[0] == 'h';
  }

  /** Literal matching is not: the literal `hit300-5.png` matches `HIT300-5.png`. */
  lemma LiteralMatchesUpperCaseFrame(otherElementName: string, elementName: string)
    requires otherElementName == "hit300-5.png" && elementName == "HIT300-5.png"
    ensures LiteralMatch(otherElementName, elementName)
  {
    CaseFold(elementName, otherElementName);
  }

  /** `hit300-5.png` is a frame of `hit300-{n}.png`. */
  lemma DigitFrameOfHit300(elementName: string, animationName: string)
    requires elementName == "hit300-5.png" && animationName == "hit300-{n}.png"
    ensures IsAnimationFrameOf(elementName, animationName)
  {
    var x, y, d := "hit300-", ".png", "5";
    Hit300FramePieces(x, y);
    DigitsMakeAnimationFrame(x, y, d);
  }

  /** So is `hit300-.png`: the digit run may be empty. */
  lemma EmptyFrameOfHit300(elementName: string, animationName: string)
    requires elementName == "hit300-.png" && animationName == "hit300-{n}.png"
    ensures IsAnimationFrameOf(elementName, animationName)
  {
    var x, y, d := "hit300-", ".png", "";
    Hit300FramePieces(x, y);
    DigitsMakeAnimationFrame(x, y, d);
  }

  /** A frame is lower case: `HIT300-5.png` is not a frame of `hit300-{n}.png`. */
  lemma UpperCaseIsNoFrame(elementName: string, animationName: string)
    requires elementName == "HIT300-5.png" && animationName == "hit300-{n}.png"
    ensures !IsAnimationFrameOf(elementName, animationName)
  {
    AnimationFrameIsLowerCase(elementName, animationName);
    assert Lower(elementName)[0] == 'h';
  }

  // Mode gates.

  /** Taiko has no rule of its own: a set of taiko beatmaps uses none of the standard, catch or mania
      elements, but does use those of every mode but mania. */
  lemma TaikoOnlySet(beatmapSet: BeatmapSet, cutPath: string -> string)
    requires |beatmapSet.beatmaps| > 0
    requires forall i :: 0 <= i < |beatmapSet.beatmaps| ==> beatmapSet.beatmaps[i].mode == Taiko
    ensures !Holds(Categories[1], beatmapSet, cutPath) && !Holds(Categories[2], beatmapSet, cutPath)
    ensures !Holds(Categories[3], beatmapSet, cutPath) && Holds(Categories[4], beatmapSet, cutPath)
  {
    EarlyCategories();
    MiddleCategories();
    StandardGate(SkinStandard, beatmapSet, cutPath);
    CatchGate(SkinCatch, beatmapSet, cutPath);
    ManiaGate(SkinMania, beatmapSet, cutPath);
    NotManiaGate(SkinNotMania, beatmapSet, cutPath);
  }

}
