/**
 * `process_video` of the Streamlit app served through a tunnel, from team assignment to
 * the ball-control timeline: the team pass over every frame, then the ball
 * pass, on the tracks the earlier stages produced.
 */
module App {
  import opened Tracking
  import opened TeamLabelling
  import opened BallControl
  import opened TrackStore

  /**
   * Runs the team-labelling pass and then the ball-control pass over
   * `tracks`. The colour table is what calibrating the team assigner on frame
   * 0 produced, so at least one frame is needed. Returns the team-control
   * timeline; `tracks` ends up labelled and flagged.
   */
  method ProcessVideo(tracks: Tracks, classify: Classifier, colors: map<TeamId, Color>, holder: HolderSelector)
    returns (teamBallControl: seq<Option<TeamId>>)
    requires tracks.Valid() && |tracks.players| > 0
    requires TeamsKnown(tracks.players, classify, colors)
    requires BallTracked(tracks.ball, |tracks.players|)
    requires var labelled := LabelAll(tracks.players, classify, colors);
             HoldersValid(labelled, Holders(labelled, tracks.ball, holder))
    modifies tracks
    ensures tracks.Valid() && tracks.ball == old(tracks.ball) && tracks.playerOrder == old(tracks.playerOrder)
    ensures var labelled := LabelAll(old(tracks.players), classify, colors);
            var hs := Holders(labelled, tracks.ball, holder);
            && teamBallControl == Timeline(labelled, hs)
            && tracks.players == MarkAll(labelled, hs)
  {
    tracks.AssignTeams(classify, colors);
    LabellingEnablesBallPass(old(tracks.players), tracks.ball, classify, colors, holder);
    teamBallControl := tracks.AssignBallControl(holder);
  }
}
