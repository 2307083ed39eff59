# Skin-usage rules of MapsetParser

This project models `SkinStatic` from MapsetParser (`statics/SkinStatic.cs`). `SkinStatic` decides whether a
skin element of a beatmap set is used, for names such as `hit300-5.png` or `scorebar-bg.png`.

The class holds a process-wide, append-only list of skin conditions. Each condition is a list of element
names plus an optional use condition over the beatmap set. It also holds a once-only `isInitialized` flag.

The first call to `IsUsed` runs `Initialize`, which works in two steps:
- It registers fourteen rules: every category list with its mode or feature gate.
- It walks a snapshot of that list. For every name holding `-{n}` it appends a "still frame" rule for the
  name with `-{n}` removed. The still-frame rule is gated on no file of the set being an animation frame of
  the animated name.

A query takes the first rule, in registration order, that has a matching name. A name matches literally, or
through the `{n}` template test. The query then answers with that rule's condition.

Modules:
- `Text`: the .NET string operations the source uses, stated ordinally over ASCII. These are `ToLower`,
  `IndexOf`, `IndexOf(char, int)`, `Contains`, `Replace`, `Insert`, and the `^\d+` match.
- `Mapset`: the facts about a beatmap set that the gates read, and LINQ's `Any`.
- `SkinMatching`: `IsAnimationFrameOf` and the two name tests of `GetSkinCondition`, each with a
  search-free characterisation.
- `SkinRules`: the gate datatype and its evaluation, and the category lists as the source writes them. Also
  the first-match lookup, the query over a table, the still-frame derivation pass as a function, and the
  full table `Table()`.
- `SkinStatic`: the class `SkinRegistry`. Its fields are `skinConditions` and `isInitialized`. Its methods
  are `AddElements`, `AddElement`, `AddStillFrame`, `Initialize`, `GetSkinCondition` (with its inner loop `MatchesAnyName`) and `IsUsed`, with
  loops where the source has loops. Each method is proved against the functions of `SkinRules`.
- `SkinProperties`: facts about the concrete table. Which rule a given name resolves to, what its gate is,
  which rules are shadowed, and worked examples of the two matchers.

Behaviour of the code that the model follows, and that proofs here pin down:
- Template matching lower-cases only the template side, so it is case-sensitive on the queried name.
  Literal matching lower-cases both sides.
- In `GetSkinCondition` a template frame is whatever stands between the placeholder's offset and the next
  `.`, so it need not be digits: `sliderb{n}.png` matches `sliderb-nd.png`. `IsAnimationFrameOf` takes
  only a run of digits, possibly empty.
- A still frame's gate is only "no file is a frame of the animated name". The animated rule's own gate is
  not part of it.
- First match wins. Three consequences:
  - `sliderb-nd.png` and `sliderb-spec.png` resolve to the slider rule.
  - The rule registered for `skinNotSliderb`, with its check that no file is `sliderb.png`, never decides
    any query.
  - The derived still-frame rules for `comboburst.png`, `hitcircleoverlay.png`, `followpoint.png`,
    `sliderstartcircleoverlay.png`, `sliderendcircleoverlay.png` and `sliderfollowcircle.png` exist, but the
    standard or slider rule lists those names itself and matches first.
  - A still frame that no registration lists, such as `hit300.png`, does reach its derived rule. It is
    then used whenever no file is a frame of `hit300-{n}.png`, whatever the modes of the beatmaps.
- Two behaviours one might expect do not hold. A still frame's gate does not include the animated rule's
  gate, and animation frames are not compared without regard to case.

Data, as the source lays it out:
- `SkinRules.SkinCondition` is the source's `SkinCondition` struct (statics/SkinStatic.cs:254-264): the
  element names and an optional use condition, `None` standing for the null lambda.
- `SkinRules.Gate` names each use-condition lambda the source registers (statics/SkinStatic.cs:277-316
  and 331-332). `SkinRules.Eval` evaluates one; its cases are stated by `EvalBeatmaps` and `EvalPaths`.
- The category constants of `SkinRules` (`Cursor` to `SkinBreak`) are the source's string arrays
  (statics/SkinStatic.cs:15-251), in the same order. `SkinGeneral`, `SkinStandard`, `SkinCountdown` and
  `SkinStandardSpinner` are the concatenations the source writes.
- `SkinRules.Categories` is the list of the fourteen registrations of `Initialize`, in order, each with
  its gate (statics/SkinStatic.cs:277-316).

## Model

| member | source | states |
|---|---|---|
| Text.Lower | statics/SkinStatic.cs:359 | `ToLower` keeps the length and lower-cases each character; upper-case letters go away, every other character, digits included, is kept |
| Text.DigitRun | statics/SkinStatic.cs:344 | the `^\d+` match is the longest prefix made of decimal digits: it is a prefix, it is all digits, and a non-digit or the end follows it |
| Text.IndexOf | statics/SkinStatic.cs:340 | `-1` exactly when the value occurs nowhere; otherwise the first position where it occurs |
| Text.Contains | statics/SkinStatic.cs:363 | true exactly when the value occurs at some position |
| Text.IndexOfChar | statics/SkinStatic.cs:368-370 | `-1` exactly when the character is absent from `startIndex` on; otherwise the first position at or after `startIndex` holding it |
| Text.Replace | statics/SkinStatic.cs:373 | a string in which the old value does not occur comes back unchanged |
| Text.ReplaceAround | statics/SkinStatic.cs:346 | replacing the only occurrence of the old value in `a + old + b` gives `a + new + b` |
| Text.ReplaceHead | statics/SkinStatic.cs:322 | an occurrence at the start is replaced, and the rest is replaced in turn |
| Text.Insert | statics/SkinStatic.cs:329 | `Insert` puts the value at `startIndex` and keeps what stood before and after it |
| Mapset.Any | statics/SkinStatic.cs:278-279 | LINQ `Any` is true exactly when some element satisfies the predicate |
| SkinRules.AnyHitObject | statics/SkinStatic.cs:299-300 | true exactly when some hit object of some beatmap satisfies the predicate |
| SkinRules.EvalBeatmaps | statics/SkinStatic.cs:278-306 | each beatmap gate holds exactly when some beatmap has a mode in the set, a mode other than mania, a countdown above 0, a slider, a slider with more than one edge, a spinner, or a break |
| SkinRules.EvalPaths | statics/SkinStatic.cs:309-316 | each path gate holds exactly when no cut path equals the name, some cut path equals it, or no cut path is an animation frame of the template |
| SkinRules.Eval | statics/SkinStatic.cs:278-316 | evaluates the gate of a rule on a set: the path gates through `EvalPaths`, the rest through `EvalBeatmaps` |
| SkinRules.FirstMatchFrom | statics/SkinStatic.cs:355-380 | the index found from `from` is a matching rule with no matching rule between `from` and it; `None` means no rule from `from` on matches |
| SkinRules.FirstMatch | statics/SkinStatic.cs:353-381 | the rule `GetSkinCondition` returns is the first that matches; `None` exactly when no rule matches |
| SkinRules.FirstMatchIs | statics/SkinStatic.cs:355-360 | a matching rule with no matching rule before it is the one found |
| SkinRules.FirstMatchInPrefix | statics/SkinStatic.cs:318-322 | rules appended after the one found do not change the answer |
| SkinRules.CoveredRuleUnreachable | statics/SkinStatic.cs:355-380 | a rule whose every match an earlier rule also matches is never the one found |
| SkinRules.Holds | statics/SkinStatic.cs:390-395 | a rule holds when its condition is null or holds; a rule with the null condition holds for every set |
| SkinRules.Used | statics/SkinStatic.cs:383-396 | the answer of `IsUsed` over a table: false for an element no rule matches, true when the first matching rule has the null condition |
| SkinRules.UsedAtFirstMatch | statics/SkinStatic.cs:390-395 | once the rule found is known, the answer is that rule's condition, or true when it has none |
| SkinRules.UsedAtStillFrame | statics/SkinStatic.cs:331-332 | a query whose first matching rule is a still-frame rule is used exactly when no cut path is a frame of the animated name |
| SkinRules.UsedCases | statics/SkinStatic.cs:383-396 | an element is used exactly when some rule matches, no earlier rule matches, and that rule's condition is null or holds; an unrecognised name is never used |
| SkinRules.AnimatedVersion | statics/SkinStatic.cs:329 | the animated name is the still frame with `-{n}` inserted before its first `.` |
| SkinRules.AnimatedVersionOf | statics/SkinStatic.cs:329 | for `a + b` with the first `.` starting `b`, the animated name is `a + "-{n}" + b` |
| SkinRules.StillFrameRule | statics/SkinStatic.cs:327-333 | `AddStillFrame` appends at most one rule, exactly when some rule lists the animated name; that rule lists only the still frame and is gated on no file being a frame of the animated name |
| SkinRules.StillFrameStep | statics/SkinStatic.cs:321-322 | one visited name appends at most one rule: none for a name without `-{n}`, otherwise only a rule for the name with `-{n}` removed, gated on its frames |
| SkinRules.StillFrameKeepsDot | statics/SkinStatic.cs:322 | removing `-{n}` keeps the `.` that `AddStillFrame` needs |
| SkinRules.CategoriesHaveDot | statics/SkinStatic.cs:15-251 | every name of every category contains a `.`, so the `IndexOf(".")` in `AddStillFrame` never returns -1 |
| SkinRules.Derive | statics/SkinStatic.cs:319-322 | the derivation pass only appends: the snapshot stays a prefix of the list |
| SkinRules.DeriveSnoc | statics/SkinStatic.cs:320-322 | visiting one more name extends the list by that name's step, judged against the list as it stands |
| SkinRules.DeriveShape | statics/SkinStatic.cs:318-333 | every rule the pass appends is a still-frame rule whose animated name is listed by an earlier rule |
| SkinRules.DeriveHasStillFrame | statics/SkinStatic.cs:319-333 | every registered animated name `a + "-{n}" + b` produces a rule for `a + b`, gated only on no file being a frame of it |
| SkinRules.DeriveMisses | statics/SkinStatic.cs:318-322 | names whose still frames miss a query append only rules that miss it |
| SkinRules.DerivePrefix | statics/SkinStatic.cs:318-322 | visiting more names only appends: the list after `a` is a prefix of the list after `a + b` |
| SkinRules.DeriveReachesStill | statics/SkinStatic.cs:318-322 | a query no registration matches and no earlier still frame matches, but the still frame of the next name does, first matches that name's still-frame rule, whatever names follow |
| SkinRules.ReachesListedStill | statics/SkinStatic.cs:318-333 | the same for a registered animated name `a + "-{n}" + b`: the first match is the rule for `a + b` gated on the frames of the animated name |
| SkinRules.TableReachesStill | statics/SkinStatic.cs:274-333 | in the full table, such a query first matches, after the fourteen registrations, the still-frame rule for `a + b` |
| SkinRules.NoDashNoStillFrame | statics/SkinStatic.cs:321 | a name without `-` produces no still frame |
| SkinRules.Table | statics/SkinStatic.cs:274-325 | the full table begins with the fourteen registrations in order |
| SkinMatching.IsAnimationFrameOf | statics/SkinStatic.cs:335-351 | a frame is lower case, and only a template holding `{n}` has frames |
| SkinMatching.LiteralMatch | statics/SkinStatic.cs:359 | two names match literally exactly when they have the same length and agree at each position up to case |
| SkinMatching.TemplateMatch | statics/SkinStatic.cs:362-375 | only a lower-case name holding a `.` passes the template test |
| SkinMatching.NameMatches | statics/SkinStatic.cs:359-375 | a name that is not all lower case matches only literally |
| SkinMatching.AnimationFrameIff | statics/SkinStatic.cs:335-351 | for a template `x + "{n}" + y` with no digit right after the placeholder, a name is a frame exactly when it is longer than `x` and equals the lower-cased template with some run of digits, possibly empty, in place of `{n}` |
| SkinMatching.AnimationFrameSplits | statics/SkinStatic.cs:340-347 | a frame is the lower-cased template with a run of digits in place of `{n}` |
| SkinMatching.DigitsMakeAnimationFrame | statics/SkinStatic.cs:340-347 | every such digit run gives a frame |
| SkinMatching.NonDigitIsNoFrame | statics/SkinStatic.cs:344 | a non-digit in place of `{n}` gives no frame |
| SkinMatching.AnimationFrameIsLowerCase | statics/SkinStatic.cs:346 | a frame is lower case: only the template is lower-cased before the comparison |
| SkinMatching.TemplateMatchIff | statics/SkinStatic.cs:362-375 | for a template `x + "{n}" + y` with `y` starting at a `.`, a name matches exactly when it equals the lower-cased template with some dot-free, lower-case text in place of `{n}`; the text need not be digits |
| SkinMatching.TemplateMatchSplits | statics/SkinStatic.cs:365-373 | a name the template test accepts is the lower-cased template around a dot-free, lower-case frame |
| SkinMatching.SplitNameMatchesTemplate | statics/SkinStatic.cs:365-373 | every dot-free, lower-case frame between the lower-cased template pieces is accepted |
| SkinMatching.TemplateMatchIsLowerCase | statics/SkinStatic.cs:373 | the template test accepts only names that are already lower case |
| SkinMatching.LiteralMatchIgnoresCase | statics/SkinStatic.cs:359 | names with the same lower-case form match the same literals |
| SkinMatching.MatchAgreesAt | statics/SkinStatic.cs:359-375 | a rule name with no brace up to position `q` matches only names longer than `q` that agree with it, up to case, at `q` |
| SkinMatching.MismatchAt | statics/SkinStatic.cs:359-375 | a brace-free rule name does not match a name that differs from it at a position where neither has an upper-case letter |
| SkinStatic.SkinRegistry.constructor | statics/SkinStatic.cs:266 | the list starts empty and `isInitialized` starts false |
| SkinStatic.SkinRegistry.AddElements | statics/SkinStatic.cs:268-269 | appends one rule with the given names and condition; the flag is unchanged |
| SkinStatic.SkinRegistry.AddElement | statics/SkinStatic.cs:271-272 | appends one rule with the single name and the condition |
| SkinStatic.SkinRegistry.AddStillFrame | statics/SkinStatic.cs:327-333 | appends exactly what `StillFrameRule` gives for the list as it stood |
| SkinStatic.SkinRegistry.Initialize | statics/SkinStatic.cs:274-325 | starts from the empty, uninitialised state and ends with the list equal to `Table()` and the flag set |
| SkinStatic.SkinRegistry.AddCategories | statics/SkinStatic.cs:276-316 | from an empty list, the fourteen registrations give `Categories` |
| SkinStatic.SkinRegistry.AddStillFrames | statics/SkinStatic.cs:318-322 | the outer loop over the snapshot leaves `Derive(snapshot, all its names in order)` |
| SkinStatic.SkinRegistry.AddRuleStillFrames | statics/SkinStatic.cs:320-322 | the inner loop over one rule's names extends the derivation by exactly those names |
| SkinStatic.SkinRegistry.AddNameStillFrame | statics/SkinStatic.cs:321-322 | one visited name adds its still frame when it holds `-{n}`, and nothing otherwise |
| SkinStatic.SkinRegistry.GetSkinCondition | statics/SkinStatic.cs:353-381 | returns the rule at `FirstMatch`, or null when no rule matches |
| SkinStatic.SkinRegistry.MatchesAnyName | statics/SkinStatic.cs:357-375 | the inner loop reports a match exactly when one of the rule's names matches |
| SkinStatic.SkinRegistry.CompareName | statics/SkinStatic.cs:359-375 | the loop body returns true exactly when the literal test or the template test accepts |
| SkinStatic.SkinRegistry.IsUsed | statics/SkinStatic.cs:383-396 | initialises only when the flag is clear and leaves an initialised list unchanged; the answer is `Used(Table(), …)` whatever state the call found, so equal queries give equal answers |
| SkinProperties.EarlyCategories | statics/SkinStatic.cs:277-287 | registrations 0 to 3: `skinGeneral` ungated, then standard, catch or standard, and mania or standard |
| SkinProperties.MiddleCategories | statics/SkinStatic.cs:288-302 | registrations 4 to 7: not mania, countdown, slider, and `reversearrow.png` on multi-edge sliders |
| SkinProperties.LateCategories | statics/SkinStatic.cs:303-316 | registrations 8 to 13: spinner, break, no `sliderb.png`, and the three particles on `hit50/100/300.png` |
| SkinProperties.StandardGate | statics/SkinStatic.cs:278-279 | the standard rule holds exactly when some beatmap is standard |
| SkinProperties.CatchGate | statics/SkinStatic.cs:280-283 | the catch rule holds exactly when some beatmap is catch or standard |
| SkinProperties.ManiaGate | statics/SkinStatic.cs:284-287 | the mania rule holds exactly when some beatmap is mania or standard |
| SkinProperties.NotManiaGate | statics/SkinStatic.cs:288-289 | the not-mania rule holds exactly when some beatmap is not mania |
| SkinProperties.CountdownGate | statics/SkinStatic.cs:297-298 | the countdown rule holds exactly when some countdown is above 0 |
| SkinProperties.SliderGate | statics/SkinStatic.cs:299-300 | the slider rule holds exactly when some hit object is a slider |
| SkinProperties.MultiEdgeSliderGate | statics/SkinStatic.cs:301-302 | the reverse-arrow rule holds exactly when some slider has `edgeAmount` above 1 |
| SkinProperties.SpinnerGate | statics/SkinStatic.cs:303-304 | the spinner rule holds exactly when some hit object is a spinner |
| SkinProperties.BreakGate | statics/SkinStatic.cs:305-306 | the break rule holds exactly when some beatmap has a break |
| SkinProperties.PathGate | statics/SkinStatic.cs:311-316 | a particle rule holds exactly when some cut path equals its element |
| SkinProperties.TaikoOnlySet | statics/SkinStatic.cs:278-291 | a set of only taiko beatmaps fails the standard, catch and mania gates and passes the not-mania gate |
| SkinProperties.CategoryRule | statics/SkinStatic.cs:274-316 | the first fourteen rules of the table are the registrations |
| SkinProperties.ResolvesTo | statics/SkinStatic.cs:318-322 | the appended still-frame rules never change which registration a name resolves to |
| SkinProperties.GeneralAlwaysUsed | statics/SkinStatic.cs:277 | every name matching `skinGeneral` resolves to rule 0 and is used for every set |
| SkinProperties.MixedCaseNameIsGeneral | statics/SkinStatic.cs:359 | `Scorebar-BG.PNG` matches the general `scorebar-bg.png` |
| SkinProperties.MixedCaseNameUsed | statics/SkinStatic.cs:34 | `Scorebar-BG.PNG` is used for every set |
| SkinProperties.NotSliderbNamesAreSliderNames | statics/SkinStatic.cs:238-242 | every name matching `skinNotSliderb` also matches the slider list |
| SkinProperties.NotSliderbRuleCoveredBySliderRule | statics/SkinStatic.cs:299-310 | whatever rule 10 matches, rule 6 matches too |
| SkinProperties.NotSliderbUnreachable | statics/SkinStatic.cs:309-310 | no name ever resolves to the `skinNotSliderb` rule |
| SkinProperties.SliderbVariantsFirstMatch | statics/SkinStatic.cs:208-210 | among the registrations, `sliderb-nd.png` and `sliderb-spec.png` first match rule 6 |
| SkinProperties.SliderbVariantsResolve | statics/SkinStatic.cs:299-300 | those two names resolve to the slider rule and are used exactly when some beatmap has a slider |
| SkinProperties.ComboBurstResolves | statics/SkinStatic.cs:116 | `comboburst.png` resolves to rule 1 and is used exactly when some beatmap is standard |
| SkinProperties.HitCircleOverlayResolves | statics/SkinStatic.cs:132 | `hitcircleoverlay.png` resolves to rule 1 and is used exactly when some beatmap is standard |
| SkinProperties.FollowPointResolves | statics/SkinStatic.cs:135 | `followpoint.png` resolves to rule 1 and is used exactly when some beatmap is standard |
| SkinProperties.InputOverlayKeyResolves | statics/SkinStatic.cs:164 | `inputoverlay-key.png` resolves to rule 2 and is used exactly when some beatmap is catch or standard |
| SkinProperties.ManiaKeyIconResolves | statics/SkinStatic.cs:147 | `selection-mod-key4.png` resolves to rule 3, past the general and standard mod icons, and is used exactly when some beatmap is mania or standard |
| SkinProperties.ScorebarKiResolves | statics/SkinStatic.cs:173 | `scorebar-ki.png` resolves to rule 4, past the general scorebar names, and is used exactly when some beatmap is not mania |
| SkinProperties.CountOneResolves | statics/SkinStatic.cs:183 | `count1.png` resolves to rule 5 and is used exactly when some countdown is above 0 |
| SkinProperties.ReverseArrowResolves | statics/SkinStatic.cs:301-302 | `reversearrow.png` resolves to rule 7 and is used exactly when some slider has more than one edge |
| SkinProperties.SpinnerOsuResolves | statics/SkinStatic.cs:232 | `spinner-osu.png` resolves to rule 8 and is used exactly when some beatmap has a spinner |
| SkinProperties.SectionPassResolves | statics/SkinStatic.cs:247 | `section-pass.png` resolves to rule 9 and is used exactly when some beatmap has a break |
| SkinProperties.Particle300Resolves | statics/SkinStatic.cs:315-316 | `particle300.png` resolves to rule 13 and is used exactly when some cut path is `hit300.png` |
| SkinProperties.Particle50Resolves | statics/SkinStatic.cs:311-312 | `particle50.png` resolves to rule 11 and is used exactly when some cut path is `hit50.png` |
| SkinProperties.Particle100Resolves | statics/SkinStatic.cs:313-314 | `particle100.png` resolves to rule 12 and is used exactly when some cut path is `hit100.png` |
| SkinProperties.SliderStartCircleOverlayResolves | statics/SkinStatic.cs:200 | `sliderstartcircleoverlay.png` resolves to rule 6 and is used exactly when some beatmap has a slider |
| SkinProperties.SliderEndCircleOverlayResolves | statics/SkinStatic.cs:203 | `sliderendcircleoverlay.png` resolves to rule 6 and is used exactly when some beatmap has a slider |
| SkinProperties.SliderFollowCircleResolves | statics/SkinStatic.cs:205 | `sliderfollowcircle.png` resolves to rule 6 and is used exactly when some beatmap has a slider |
| SkinProperties.DerivedRulesAreStillFrames | statics/SkinStatic.cs:318-333 | every rule after the fourteen registrations is a still-frame rule whose animated name an earlier rule lists |
| SkinProperties.TableHasStillFrame | statics/SkinStatic.cs:319-332 | a registered animated name gives the table its still-frame rule, whatever the registering rule's own gate is |
| SkinProperties.Hit300MissesRegistrations | statics/SkinStatic.cs:15-316 | `hit300.png` matches none of the fourteen registrations, though `hit300-{n}.png` and `hit300g-{n}.png` are listed |
| SkinProperties.Hit300StillsMissBefore | statics/SkinStatic.cs:15-108 | no name visited before `hit300-{n}.png` gives a still frame that matches `hit300.png` |
| SkinProperties.Hit300StillFrame | statics/SkinStatic.cs:108 | the query `hit300.png` first matches, at some index after the fourteen registrations, the derived rule for `hit300.png` gated on no file being a frame of `hit300-{n}.png` |
| SkinProperties.Hit300Resolves | statics/SkinStatic.cs:331-332 | `hit300.png` is used exactly when no cut path is a frame of `hit300-{n}.png`, whatever the modes of the beatmaps |
| SkinProperties.ComboBurstStillFrameShadowed | statics/SkinStatic.cs:116-117 | the still-frame rule for `comboburst.png` is in the table, yet the name resolves to the standard rule |
| SkinProperties.HitCircleOverlayStillFrameShadowed | statics/SkinStatic.cs:132-133 | likewise for `hitcircleoverlay.png` |
| SkinProperties.FollowPointStillFrameShadowed | statics/SkinStatic.cs:135-136 | likewise for `followpoint.png` |
| SkinProperties.SliderStartCircleOverlayStillFrameShadowed | statics/SkinStatic.cs:200-201 | the still-frame rule for `sliderstartcircleoverlay.png` is in the table, yet the name resolves to the slider rule |
| SkinProperties.SliderEndCircleOverlayStillFrameShadowed | statics/SkinStatic.cs:203-204 | likewise for `sliderendcircleoverlay.png` |
| SkinProperties.SliderFollowCircleStillFrameShadowed | statics/SkinStatic.cs:205-206 | likewise for `sliderfollowcircle.png` |
| SkinProperties.SliderbTemplateHasNoStillFrame | statics/SkinStatic.cs:208 | `sliderb{n}.png` holds no `-{n}` and gets no still frame |
| SkinProperties.TemplateFrameNeedNotBeDigits | statics/SkinStatic.cs:370-373 | `sliderb{n}.png` matches `sliderb-nd.png` with the frame `-nd` |
| SkinProperties.TemplateMatchesLowerCaseFrame | statics/SkinStatic.cs:373 | `hit300-{n}.png` matches `hit300-5.png` |
| SkinProperties.TemplateMissesUpperCaseFrame | statics/SkinStatic.cs:373 | `hit300-{n}.png` does not match `HIT300-5.png` |
| SkinProperties.LiteralMatchesUpperCaseFrame | statics/SkinStatic.cs:359 | the literal `hit300-5.png` matches `HIT300-5.png` |
| SkinProperties.DigitFrameOfHit300 | statics/SkinStatic.cs:344-347 | `hit300-5.png` is a frame of `hit300-{n}.png` |
| SkinProperties.EmptyFrameOfHit300 | statics/SkinStatic.cs:344-347 | `hit300-.png` is a frame of `hit300-{n}.png`: the digit run may be empty |
| SkinProperties.UpperCaseIsNoFrame | statics/SkinStatic.cs:346 | `HIT300-5.png` is not a frame of `hit300-{n}.png` |

## Left out

- `PathStatic.CutPath` is not part of this model. The gates and `IsUsed` take it as a parameter `cutPath`, with nothing assumed about it.
- The `BeatmapSet`, `Beatmap`, `Slider` and `Spinner` types are not part of this model. `Mapset` keeps only the fields the gates read: mode, countdown, hit-object kind, slider `edgeAmount`, breaks and `songFilePaths`. The start and end times of a break are kept but never read.
- objects/events/Sprite.cs is not part of this model. It parses storyboard sprites with floating point and depends on code that is not shown.
- `ToLower()` and `IndexOf(string)` (lines 340, 346, 359, 365 and 373) use the current culture in .NET. They are modelled as ordinal, with ASCII lower-casing. `string.Contains` and `Enumerable.Contains` (lines 321, 330 and 363) are ordinal in .NET and are modelled exactly. The `\d` of `Regex` is modelled as the ASCII digits `0`-`9`, not every Unicode decimal digit.
- Thread safety of the lazy `isInitialized` check is left out: concurrent first calls are a concurrency matter.
- The commented-out taiko registration and the commented-out `hit0.png` of `skinCatch` (lines 161 and 292-294) are not code and are not modelled.
- The source's static fields become the fields of one `SkinRegistry` object. Its constructor plays the static initialisers.
- Initialize: its registrations and its nested loop form two methods, AddCategories and AddStillFrames, and the loop bodies form AddRuleStillFrames and AddNameStillFrame. The behaviour is the same.
- GetSkinCondition: its inner loop is the static method MatchesAnyName, and the body of that loop is the static method CompareName. The source's `return` from inside the inner loop becomes a return in the outer loop once MatchesAnyName reports a match. The behaviour is the same.
- AddCategories requires an empty list. `Initialize` is only reached with an empty list, because `isInitialized` is false until it ends.
- AddStillFrame requires a `.` in its argument. In the source, `Insert(-1, …)` would throw without one. Every registered name has a `.`, as CategoriesHaveDot proves, so the source never reaches that case.
- Text.Replace: its contract covers only strings where the old value does not occur. A replaced occurrence is covered by the lemmas ReplaceHead and ReplaceAround, not by the function's own ensures.
- SkinMatching.TemplateMatchIff is stated for templates whose `{n}` is directly followed by `.`, and SkinMatching.AnimationFrameIff for templates whose `{n}` is not followed by a digit. Every template in the table is of that form; the predicates themselves follow the code for every template.
- Hit300StillFrame: the index of the derived `hit300.png` rule is stated as "some index after the fourteen registrations", not as a number. The lemma proves that this rule is the first to match, which is what decides the query.
- SkinProperties: the concrete resolution lemmas cover a chosen sample of names. Every registration has at least one, except rule 10 (`skinNotSliderb`), which NotSliderbUnreachable shows no name reaches. `hit300.png` stands for the derived still-frame rules. The lemmas do not cover every listed name.
- Initialize: "repeated queries are equal" is not a separate lemma. It follows from the IsUsed ensures, whose answer does not depend on the state the call found.
