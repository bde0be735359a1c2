/**
 * What the team-labelling pass of `process_video` computes: every player
 * record of every frame gets the team the classifier gives it and that
 * team's colour from the colour table; nothing else about the tracks changes.
 */
module TeamLabelling {
  import opened Tracking

  /** One record after labelling: its team and that team's colour. */
  function Label(rec: PlayerRecord, n: nat, id: PlayerId, classify: Classifier, colors: map<TeamId, Color>): PlayerRecord
    requires classify(n, rec.bbox, id) in colors
  {
    var team := classify(n, rec.bbox, id);
    rec.(team := Some(team), teamColor := Some(colors[team]))
  }

  /** One frame after labelling: every record of frame `n` labelled. */
  function LabelFrame(frame: FrameMap, n: nat, classify: Classifier, colors: map<TeamId, Color>): FrameMap
    requires forall id :: id in frame ==> classify(n, frame[id].bbox, id) in colors
  {
    map id | id in frame :: Label(frame[id], n, id, classify, colors)
  }

  /**
   * All frames after labelling. The frame count and each frame's players are
   * unchanged; every record carries the classifier's team for its own frame,
   * box and id, its colour is the table's colour for that team, and its box
   * and possession flag are untouched.
   */
  function LabelAll(frames: seq<FrameMap>, classify: Classifier, colors: map<TeamId, Color>): (r: seq<FrameMap>)
    requires TeamsKnown(frames, classify, colors)
    ensures |r| == |frames|
    ensures forall n :: 0 <= n < |r| ==> r[n].Keys == frames[n].Keys
    ensures forall n, id :: 0 <= n < |r| && id in r[n] ==>
      && r[n][id].team == Some(classify(n, frames[n][id].bbox, id))
      && r[n][id].teamColor == Some(colors[r[n][id].team.value])
      && r[n][id].bbox == frames[n][id].bbox
      && r[n][id].hasBall == frames[n][id].hasBall
    ensures AllLabelled(r)
    ensures TeamsKnown(r, classify, colors)
  {
    seq(|frames|, n requires 0 <= n < |frames| => LabelFrame(frames[n], n, classify, colors))
  }

  /**
   * Labelling is idempotent: labelling already-labelled tracks again with
   * the same classifier and colour table changes nothing.
   */
  lemma LabelAllIdempotent(frames: seq<FrameMap>, classify: Classifier, colors: map<TeamId, Color>)
    requires TeamsKnown(frames, classify, colors)
    ensures TeamsKnown(LabelAll(frames, classify, colors), classify, colors)
    ensures LabelAll(LabelAll(frames, classify, colors), classify, colors) == LabelAll(frames, classify, colors)
  {
    var once := LabelAll(frames, classify, colors);
    var twice := LabelAll(once, classify, colors);
    forall n | 0 <= n < |frames|
      ensures twice[n] == once[n]
    {
      assert twice[n].Keys == once[n].Keys;
      forall id | id in once[n]
        ensures twice[n][id] == once[n][id]
      {
        assert once[n][id].bbox == frames[n][id].bbox;
      }
    }
  }
}
