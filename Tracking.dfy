/**
 * The per-frame track data the analytics pipeline threads through its
 * stages, restricted to what the team-labelling and ball-control passes of
 * `process_video` read and write, plus the contracts those passes rely on
 * from the collaborators whose code is not part of this model (the team
 * classifier and the ball-holder selection).
 */
module Tracking {

  datatype Option<+T> = None | Some(value: T)

  /** Tracker identity of a player; the tracker assigns it, it is stable across frames. */
  type PlayerId = int

  /** Team label produced by the team classifier (a key of the team colour table). */
  type TeamId = int

  /** Pixel bounding box (x1, y1, x2, y2) as the detector reports it. */
  datatype BBox = BBox(x1: real, y1: real, x2: real, y2: real)

  /** A team colour: one cluster centre, three channels. */
  datatype Color = Color(c1: real, c2: real, c3: real)

  /**
   * One player's observation in one frame (one inner dictionary of
   * `tracks['players'][frame]`). A key the source has not written yet is
   * modelled as `None` for `team` and `teamColor`, and as `false` for
   * `hasBall` (the source only ever writes `True` there).
   */
  datatype PlayerRecord = PlayerRecord(
    bbox: BBox,
    team: Option<TeamId>,
    teamColor: Option<Color>,
    hasBall: bool)

  /** The ball's observation in one frame. */
  datatype BallRecord = BallRecord(bbox: BBox)

  /** All player observations of one frame, keyed by tracker id. */
  type FrameMap = map<PlayerId, PlayerRecord>

  /** The ball has the reserved track id 1 in every frame of the ball track. */
  const BallId: int := 1

  /** Returned by the holder selection when no player controls the ball. */
  const NoHolder: int := -1

  /** Classifier signature: (frame index, box, tracker id) to team. */
  type Classifier = (nat, BBox, PlayerId) -> TeamId

  /** Holder-selection signature: (frame's players, ball box) to a player id or NoHolder. */
  type HolderSelector = (FrameMap, BBox) -> int

  /**
   * For every record of every frame, the classifier answers with a team that
   * has an entry in the colour table (otherwise the colour lookup fails).
   */
  predicate TeamsKnown(frames: seq<FrameMap>, classify: Classifier, colors: map<TeamId, Color>)
  {
    forall n, id :: 0 <= n < |frames| && id in frames[n] ==> classify(n, frames[n][id].bbox, id) in colors
  }

  /** The (interpolated) ball track has a record under BallId for each of the first `count` frames. */
  predicate BallTracked(ball: seq<map<int, BallRecord>>, count: nat)
  {
    count <= |ball| && forall n :: 0 <= n < count ==> BallId in ball[n]
  }

  /** Every per-frame holder is NoHolder or a player of that frame. */
  predicate HoldersValid(frames: seq<FrameMap>, hs: seq<int>)
  {
    |hs| == |frames| && forall n :: 0 <= n < |hs| ==> hs[n] == NoHolder || hs[n] in frames[n]
  }

  /** Every record of every frame carries a team (the team pass has run). */
  predicate AllLabelled(frames: seq<FrameMap>)
  {
    forall n, id :: 0 <= n < |frames| && id in frames[n] ==> frames[n][id].team.Some?
  }
}
