# Team labelling and ball-control timeline of a sports video pipeline

This project models the last two analytic passes of `process_video` in the
basketball/football video-analytics app (both the local Streamlit front end,
`localapp.py`, and the tunnelled one, `app.py`; the two functions contain the
same two loops line for line: localapp.py:57-61 is app.py:67-71, and
localapp.py:65-75 is app.py:74-84).
Earlier stages have already built the tracks: per-frame maps from tracker id
to a player record, and a ball track with the ball under the reserved id 1.
The two passes then run in order:

1. **Team labelling.** For every frame and every player of that frame (in the
   dictionary's order), the team classifier is asked for the player's team.
   The team and the team's colour from the colour table are written into the
   record.
2. **Ball control.** For every frame, the holder selection is asked which
   player controls the ball, given that frame's players and the ball's box.
   It answers a player id or -1.
   - With a holder, that player's record gets `has_ball` and the player's team
     is appended to the team-control timeline.
   - Without one, the previous timeline entry is repeated, or `None` while the
     timeline is still empty.

The classifier (`get_player_team`) and the holder selection
(`assign_player_ball`) are not part of this model. They appear as function
parameters. The colour table (`team_colors`, the result of calibrating on
frame 0) is a parameter too.

Modules:

- `Tracking` holds the data model: `PlayerRecord`, `BallRecord`, `BBox`,
  `Color` and the per-frame `FrameMap`. It also holds the conditions under
  which the source's dictionary lookups succeed.
- `TeamLabelling` specifies the team pass (`LabelAll`).
- `BallControl` specifies the ball pass: the per-frame holders, the timeline
  as a fold (`Timeline`) with an independent reference definition
  (`ControllingTeam`, via `LastHolder`), and the `has_ball` marking
  (`MarkAll`).
- `TrackStore` holds the `Tracks` class. It is the `tracks` dictionary,
  updated in place. Its three methods are the source's loops, proved against
  the functions above: `AssignTeams` is the loop over frames of the team pass
  (localapp.py:57), `LabelPlayersOfFrame` its inner loop over one frame's
  players (localapp.py:58-61), and `AssignBallControl` the ball pass
  (localapp.py:65-75).
- `LocalApp` and `App` each hold one file's `process_video`: the team pass,
  then the ball pass.

A record key the source has not written yet is `None` for `team` and
`teamColor`, and `false` for `hasBall` (the source only ever writes `True`
there). Where the source would stop with a `KeyError` or `IndexError`, the
model makes the condition that avoids it a precondition. These conditions are:

- the classifier's answer is a key of the colour table;
- the ball track has a record under id 1 for every frame;
- each frame's holder is -1 or a player of that frame;
- the holder's record carries a team;
- at least one frame exists, because calibration reads frame 0.

The code compares the holder with -1 only. If -1 were itself a tracker id, a
selection of -1 would still count as "no holder". The model follows the code
(`MarkHolder`, `Step`).

Two behaviours of the code worth stating directly:

- Calibration always reads frame 0, even if frame 0 has no players
  (localapp.py:56). Calibration is outside the model, but `ProcessVideo`
  requires frame 0 to exist.
- The loop builds the timeline by reading the last element of the growing
  list, or `None` when it is empty (localapp.py:74).
  `Tracks.AssignBallControl` does exactly that. `BallControl.Timeline` states
  the same timeline as a fold from `None`, and the method's postcondition
  proves the two equal.

## Model

| member | source | states |
|---|---|---|
| `TeamLabelling.LabelAll` | localapp.py:57-61 | After the team pass, the frame count and each frame's set of player ids are unchanged. Every record's team is the classifier's answer for its own frame, box and id, and its team colour is the colour table's entry for that team. Box and possession flag are untouched, and every record is labelled. |
| `TeamLabelling.LabelAllIdempotent` | localapp.py:57-61 | Running the team pass again with the same classifier and colour table changes nothing. |
| `TrackStore.Tracks.constructor` | localapp.py:26 | A track store holds the given per-frame players, their dictionary order and the ball track, and satisfies its invariant (each frame's order lists exactly that frame's ids, once each). |
| `TrackStore.Tracks.AssignTeams` | localapp.py:57-61 | The in-place loop over frames leaves `players` equal to `LabelAll` of the old players. Key order and ball track are unchanged, and the invariant is kept. |
| `TrackStore.Tracks.LabelPlayersOfFrame` | localapp.py:58-61 | The in-place loop over one frame's players, in dictionary order, writes `team` then `team_color` into each record. Frame n becomes `LabelFrame` of its old value, and every other frame is untouched. |
| `BallControl.Holders` | localapp.py:67-69 | The holder selection is asked once per frame, with that frame's players and the box of the ball record under id 1, so there is one holder per frame. |
| `BallControl.Timeline` | localapp.py:66-74 | The team-control timeline, a left fold over the frames starting from `None`, has exactly one entry per frame. |
| `BallControl.TimelinePrefix` | localapp.py:66-74 | Entries are appended in frame order and never revised: the timeline of the first m frames is the first m entries of the whole timeline. |
| `BallControl.TimelineEntry` | localapp.py:70-74 | If frame n has a holder p, entry n is the `team` of p's record in frame n. Without a holder, entry n repeats entry n-1 (carry-forward), and entry 0 is `None`. |
| `BallControl.LastHolder` | localapp.py:73-74 | The most recent frame at or before n whose holder is a player: it has a holder, every later frame up to n has none, and `None` means no frame up to n has one. |
| `BallControl.TimelineIsControllingTeam` | localapp.py:66-74 | Every entry equals the reference definition: `None` before the first frame with a holder, and from then on the team of the player in the most recent frame (at or before it) that had a holder. |
| `BallControl.CarryForward` | localapp.py:73-74 | If frame k has a holder and frames k+1..m have none, every entry from k to m is the team of frame k's holder. |
| `BallControl.TimelineNoneIffNoHolderYet` | localapp.py:66-74 | When every holder's record carries a team, entry n is `None` exactly when no frame up to n had a holder (both directions). |
| `BallControl.MarkHolder` | localapp.py:70-71 | In one frame, only the selected player's record gets `has_ball`. The player ids and every other field of every record are unchanged, and with holder -1 the frame is unchanged. |
| `BallControl.MarkAll` | localapp.py:67-71 | Across all frames, the frame count and player ids are unchanged. A record's flag is set exactly when it is that frame's holder (or was already set), and no other field changes. |
| `TrackStore.Tracks.AssignBallControl` | localapp.py:65-75 | The in-place loop returns exactly `Timeline` of the frames and their holders, and leaves `players` equal to `MarkAll` of the old players. The ball track and key order are unchanged. It requires the ball record under id 1 in every frame, holders that are -1 or players of their frame, and a team on each holder's record. |
| `TrackStore.LabellingEnablesBallPass` | localapp.py:55-72 | After the team pass, every holder's record has a team, so each `team` read by the ball pass was written by the team pass. |
| `LocalApp.ProcessVideo` | localapp.py:54-75 | Team pass, then ball pass: the returned timeline is `Timeline` of the labelled frames, and the players end as `MarkAll` of the labelled frames. Key order and ball track are unchanged. |
| `App.ProcessVideo` | app.py:63-84 | The same two passes in `app.py`: the timeline is `Timeline` of the labelled frames, and the players end as `MarkAll` of the labelled frames. Key order and ball track are unchanged. |

## Left out

- Video decoding and encoding, drawing the annotations, saving the output, the Streamlit UI, the progress bar and temporary files: I/O and rendering.
- The stages before team assignment are not part of this model: object tracking, positions, camera-movement estimation and adjustment, view transformation, ball interpolation, and speed and distance. Their code is in modules that are not part of this model, and the passes here only read their result, the `tracks` dictionary.
- Team colour calibration (`assign_team_color`) is left out; its result, the colour table, is a parameter.
- The classifier (`get_player_team`) is left out and is a function parameter of (frame index, box, tracker id). Its internal state, such as its memo of earlier answers, is not modelled. This loses nothing for the pass: it asks about each (frame, id) pair exactly once, because it visits each frame once and a frame's keys are unique (localapp.py:57-59). So whatever the real assigner answers is what some function parameter answers.
- The frame image `video_frames[frame_num]` handed to the classifier (localapp.py:59) is represented by the frame index. The model assumes one player map per video frame, so that lookup never fails; the read and the pixels are left out.
- The holder selection (`assign_player_ball`) is left out; it is a function parameter.
- The on-disk stub cache, the conversion of the timeline to a NumPy array, repository cloning, the tunnel and the keep-alive loop: caching, a library call, and deployment.
- The crash paths (`KeyError`/`IndexError` on a missing colour, ball record, holder record or frame 0) are preconditions rather than modelled errors. Partial updates left behind by a crash mid-loop are therefore not modelled.
- Aliasing: records are values in the model. The source keeps one dictionary per player per frame, and the model assumes no two of them are the same object.
- Player and ball records carry only the fields these passes read or write (box, team, team colour, possession flag). The position, speed and distance fields written by earlier stages are untouched by these passes and not represented.
