/**
 * What the ball-control pass of `process_video` computes: the holder of
 * each frame, the team-control timeline built by carrying the last known
 * team forward, and the possession flag set on each frame's holder.
 */
module BallControl {
  import opened Tracking

  /** The holder the selection step picks in each frame, given that frame's players and ball box. */
  function Holders(frames: seq<FrameMap>, ball: seq<map<int, BallRecord>>, holder: HolderSelector): (hs: seq<int>)
    requires BallTracked(ball, |frames|)
    ensures |hs| == |frames|
  {
    seq(|frames|, n requires 0 <= n < |frames| => holder(frames[n], ball[n][BallId].bbox))
  }

  /** Every frame whose holder is a player has that player's record labelled with a team. */
  predicate HoldersLabelled(frames: seq<FrameMap>, hs: seq<int>)
    requires HoldersValid(frames, hs)
  {
    forall n :: 0 <= n < |hs| && hs[n] != NoHolder ==> frames[n][hs[n]].team.Some?
  }

  /** The last entry of a timeline, or None when it is still empty. */
  function Last(t: seq<Option<TeamId>>): Option<TeamId>
  {
    if t == [] then None else t[|t| - 1]
  }

  /** One step of the fold: the holder's team, or the previous entry when there is no holder. */
  function Step(prev: Option<TeamId>, frame: FrameMap, h: int): Option<TeamId>
    requires h == NoHolder || h in frame
  {
    if h != NoHolder then frame[h].team else prev
  }

  /** The team-control timeline: a left fold of Step over the frames, starting from None. */
  function Timeline(frames: seq<FrameMap>, hs: seq<int>): (t: seq<Option<TeamId>>)
    requires HoldersValid(frames, hs)
    ensures |t| == |frames|
    decreases |frames|
  {
    if frames == [] then []
    else
      var n := |frames| - 1;
      var before := Timeline(frames[..n], hs[..n]);
      before + [Step(Last(before), frames[n], hs[n])]
  }

  /**
   * The most recent frame at or before `n` whose holder is a player, if
   * there is one.
   */
  function LastHolder(hs: seq<int>, n: nat): (k: Option<nat>)
    requires n < |hs|
    ensures k.Some? ==> k.value <= n && hs[k.value] != NoHolder
    ensures k.Some? ==> forall j :: k.value < j <= n ==> hs[j] == NoHolder
    ensures k.None? ==> forall j :: 0 <= j <= n ==> hs[j] == NoHolder
    decreases n
  {
    if hs[n] != NoHolder then Some(n)
    else if n == 0 then None
    else LastHolder(hs, n - 1)
  }

  /** Reference definition of a timeline entry: the team of the most recent holder, None if none yet. */
  function ControllingTeam(frames: seq<FrameMap>, hs: seq<int>, n: nat): Option<TeamId>
    requires HoldersValid(frames, hs) && n < |hs|
  {
    match LastHolder(hs, n)
    case None => None
    case Some(k) => frames[k][hs[k]].team
  }

  /** Building the timeline of a prefix of the frames gives the prefix of the timeline. */
  lemma {:induction false} TimelinePrefix(frames: seq<FrameMap>, hs: seq<int>, m: nat)
    requires HoldersValid(frames, hs) && m <= |frames|
    ensures HoldersValid(frames[..m], hs[..m])
    ensures Timeline(frames[..m], hs[..m]) == Timeline(frames, hs)[..m]
  {
    if m < |frames| {
      var n := |frames| - 1;
      TimelinePrefix(frames[..n], hs[..n], m);
      assert frames[..n][..m] == frames[..m];
      assert hs[..n][..m] == hs[..m];
    } else {
      assert frames[..m] == frames;
      assert hs[..m] == hs;
    }
  }

  /** Extending the frames by one frame extends the timeline by one Step. */
  lemma TimelineSnoc(frames: seq<FrameMap>, hs: seq<int>, n: nat)
    requires HoldersValid(frames, hs) && n < |frames|
    ensures HoldersValid(frames[..n], hs[..n]) && HoldersValid(frames[..n + 1], hs[..n + 1])
    ensures Timeline(frames[..n + 1], hs[..n + 1])
         == Timeline(frames[..n], hs[..n]) + [Step(Last(Timeline(frames[..n], hs[..n])), frames[n], hs[n])]
  {
    assert frames[..n + 1][..n] == frames[..n];
    assert hs[..n + 1][..n] == hs[..n];
  }

  /**
   * Each timeline entry: a frame with a holder reports that holder's team;
   * a frame without one repeats the previous entry, or is None at frame 0.
   */
  lemma {:induction false} TimelineEntry(frames: seq<FrameMap>, hs: seq<int>, n: nat)
    requires HoldersValid(frames, hs) && n < |frames|
    ensures hs[n] != NoHolder ==> Timeline(frames, hs)[n] == frames[n][hs[n]].team
    ensures hs[n] == NoHolder && n > 0 ==> Timeline(frames, hs)[n] == Timeline(frames, hs)[n - 1]
    ensures hs[n] == NoHolder && n == 0 ==> Timeline(frames, hs)[n] == None
  {
    TimelinePrefix(frames, hs, n + 1);
    TimelinePrefix(frames, hs, n);
    assert frames[..n + 1][..n] == frames[..n];
    assert hs[..n + 1][..n] == hs[..n];
  }

  /**
   * The fold agrees with the reference definition: every entry is None
   * before the first frame with a holder and, from then on, the team of the
   * player in the most recent frame (at or before it) that had a holder.
   */
  lemma {:induction false} TimelineIsControllingTeam(frames: seq<FrameMap>, hs: seq<int>, n: nat)
    requires HoldersValid(frames, hs) && n < |frames|
    ensures Timeline(frames, hs)[n] == ControllingTeam(frames, hs, n)
    decreases n
  {
    TimelineEntry(frames, hs, n);
    if hs[n] == NoHolder && n > 0 {
      TimelineIsControllingTeam(frames, hs, n - 1);
    }
  }

  /**
   * Carry-forward over a run: if frame `k` has a holder and frames
   * k+1..m have none, every entry from k to m is the team of frame k's holder.
   */
  lemma CarryForward(frames: seq<FrameMap>, hs: seq<int>, k: nat, m: nat)
    requires HoldersValid(frames, hs) && k <= m < |frames|
    requires hs[k] != NoHolder
    requires forall j :: k < j <= m ==> hs[j] == NoHolder
    ensures forall j :: k <= j <= m ==> Timeline(frames, hs)[j] == frames[k][hs[k]].team
  {
    forall j | k <= j <= m
      ensures Timeline(frames, hs)[j] == frames[k][hs[k]].team
    {
      TimelineIsControllingTeam(frames, hs, j);
      assert LastHolder(hs, j) == Some(k);
    }
  }

  /**
   * When every holder's record carries a team, an entry is None exactly
   * when no frame up to it had a holder.
   */
  lemma TimelineNoneIffNoHolderYet(frames: seq<FrameMap>, hs: seq<int>, n: nat)
    requires HoldersValid(frames, hs) && HoldersLabelled(frames, hs) && n < |frames|
    ensures Timeline(frames, hs)[n] == None <==> forall j :: 0 <= j <= n ==> hs[j] == NoHolder
  {
    TimelineIsControllingTeam(frames, hs, n);
  }

  /**
   * One frame after the ball pass: the holder's record, and only it, gets
   * the possession flag; no other field of any record changes, and with no
   * holder the frame is left as it was.
   */
  function MarkHolder(frame: FrameMap, h: int): (r: FrameMap)
    requires h == NoHolder || h in frame
    ensures r.Keys == frame.Keys
    ensures forall id :: id in r ==> r[id].hasBall == (frame[id].hasBall || (h != NoHolder && id == h))
    ensures forall id :: id in r ==> SameButFlag(r[id], frame[id])
    ensures h == NoHolder ==> r == frame
  {
    if h == NoHolder then frame else frame[h := frame[h].(hasBall := true)]
  }

  /** Two records agree on every field except possibly the possession flag. */
  predicate SameButFlag(a: PlayerRecord, b: PlayerRecord)
  {
    a.bbox == b.bbox && a.team == b.team && a.teamColor == b.teamColor
  }

  /**
   * All frames after the ball pass: same frame count and players, the flag
   * set exactly on each frame's holder (on top of any flag already there),
   * every other field unchanged.
   */
  function MarkAll(frames: seq<FrameMap>, hs: seq<int>): (r: seq<FrameMap>)
    requires HoldersValid(frames, hs)
    ensures |r| == |frames|
    ensures forall n :: 0 <= n < |r| ==> r[n].Keys == frames[n].Keys
    ensures forall n, id :: 0 <= n < |r| && id in r[n] ==>
      r[n][id].hasBall == (frames[n][id].hasBall || (hs[n] != NoHolder && id == hs[n])) && SameButFlag(r[n][id], frames[n][id])
  {
    seq(|frames|, n requires 0 <= n < |frames| => MarkHolder(frames[n], hs[n]))
  }
}
