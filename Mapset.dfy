/** The facts about a beatmap set that the skin rules read. Parsing of the .osu files that produce them
    is not part of this model; only the fields the gates look at are kept. */
module Mapset {

  datatype Mode = Standard | Taiko | Catch | Mania

  /** The kinds of hit object; a slider keeps its edge count (one more than its number of reverses). */
  datatype HitObject = Circle | Slider(edgeAmount: int) | Spinner | HoldNote

  /** A break period; the gates only ask whether a beatmap has any. */
  datatype Break = Break(startTime: int, endTime: int)

  /** One difficulty: its `generalSettings.mode` and `generalSettings.countdown`, its hit objects and its breaks. */
  datatype Beatmap = Beatmap(mode: Mode, countdown: int, hitObjects: seq<HitObject>, breaks: seq<Break>)

  /** A beatmap set: its difficulties and the paths of every file it references. */
  datatype BeatmapSet = BeatmapSet(beatmaps: seq<Beatmap>, songFilePaths: seq<string>)

  /** LINQ's `Enumerable.Any(xs, p)`. */
  function Any<T>(xs: seq<T>, p: T -> bool): (r: bool)
    ensures r <==> exists i :: 0 <= i < |xs| && p(xs[i])
  {
    if xs == [] then false
    else if p(xs[0]) then true
    else
      assert forall i :: 1 <= i < |xs| ==> xs[i] == xs[1..][i - 1];
      Any(xs[1..], p)
  }
}
