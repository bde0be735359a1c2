/**
 * The `tracks` dictionary as `process_video` mutates it in place: the
 * per-frame player maps and the ball track, with the two passes over them
 * written as the loops they are and proved against the specifications in
 * TeamLabelling and BallControl.
 */
module TrackStore {
  import opened Tracking
  import opened TeamLabelling
  import opened BallControl

  /** `order` lists the keys of `frame`, each once: the order a dictionary's `items()` yields them in. */
  predicate ListsKeys(order: seq<PlayerId>, frame: FrameMap)
  {
    && (forall i, j :: 0 <= i < j < |order| ==> order[i] != order[j])
    && (forall id :: id in frame ==> id in order)
    && (forall i :: 0 <= i < |order| ==> order[i] in frame)
  }

  /**
   * The team pass must finish before the ball pass: once every record is
   * labelled, whichever player the holder selection picks in any frame has a
   * team to read.
   */
  lemma LabellingEnablesBallPass(frames: seq<FrameMap>, ball: seq<map<int, BallRecord>>,
                                 classify: Classifier, colors: map<TeamId, Color>, holder: HolderSelector)
    requires TeamsKnown(frames, classify, colors) && BallTracked(ball, |frames|)
    requires HoldersValid(LabelAll(frames, classify, colors), Holders(LabelAll(frames, classify, colors), ball, holder))
    ensures HoldersLabelled(LabelAll(frames, classify, colors), Holders(LabelAll(frames, classify, colors), ball, holder))
  {
  }

  class Tracks {
    /** `tracks['players']`: one map from tracker id to record per frame. */
    var players: seq<FrameMap>
    /** The insertion order of each frame's player dictionary, which is the order iteration visits them in. */
    var playerOrder: seq<seq<PlayerId>>
    /** `tracks['ball']`: one map per frame, the ball under BallId. */
    var ball: seq<map<int, BallRecord>>

    ghost predicate Valid()
      reads this
    {
      |playerOrder| == |players| && forall n :: 0 <= n < |players| ==> ListsKeys(playerOrder[n], players[n])
    }

    constructor (players: seq<FrameMap>, playerOrder: seq<seq<PlayerId>>, ball: seq<map<int, BallRecord>>)
      requires |playerOrder| == |players| && forall n :: 0 <= n < |players| ==> ListsKeys(playerOrder[n], players[n])
      ensures Valid()
      ensures this.players == players && this.playerOrder == playerOrder && this.ball == ball
    {
      this.players := players;
      this.playerOrder := playerOrder;
      this.ball := ball;
    }

    /**
     * The team-labelling pass: for every frame, for every player of that
     * frame, ask the classifier for the team and write it and its colour into
     * the record. Afterwards the players are exactly the labelled frames.
     */
    method AssignTeams(classify: Classifier, colors: map<TeamId, Color>)
      requires Valid() && TeamsKnown(players, classify, colors)
      modifies this
      ensures Valid()
      ensures players == LabelAll(old(players), classify, colors)
      ensures playerOrder == old(playerOrder) && ball == old(ball)
    {
      ghost var frames := players;
      var n := 0;
      while n < |players|
        invariant 0 <= n <= |players| == |frames|
        invariant playerOrder == old(playerOrder) && ball == old(ball)
        invariant forall k :: 0 <= k < n ==> players[k] == LabelFrame(frames[k], k, classify, colors)
        invariant forall k :: n <= k < |frames| ==> players[k] == frames[k]
      {
        LabelPlayersOfFrame(n, classify, colors);
        n := n + 1;
      }
      assert players == LabelAll(frames, classify, colors);
      assert forall k :: 0 <= k < |players| ==> players[k].Keys == frames[k].Keys;
    }

    /**
     * The inner loop of the team-labelling pass, over the players of frame
     * `n` in the dictionary's order: frame `n` ends up labelled, every other
     * frame is untouched.
     */
    method LabelPlayersOfFrame(n: nat, classify: Classifier, colors: map<TeamId, Color>)
      requires Valid() && n < |players|
      requires forall id :: id in players[n] ==> classify(n, players[n][id].bbox, id) in colors
      modifies this
      ensures Valid()
      ensures players == old(players)[n := LabelFrame(old(players)[n], n, classify, colors)]
      ensures playerOrder == old(playerOrder) && ball == old(ball)
    {
      ghost var frame := players[n];
      var order := playerOrder[n];
      var i := 0;
      while i < |order|
        invariant i <= |order|
        invariant n < |players| && playerOrder == old(playerOrder) && ball == old(ball)
        invariant players == old(players)[n := players[n]]
        invariant players[n].Keys == frame.Keys
        invariant forall id :: id in frame ==>
          players[n][id] == if id in order[..i] then Label(frame[id], n, id, classify, colors) else frame[id]
      {
        var id := order[i];
        var team := classify(n, players[n][id].bbox, id);
        players := players[n := players[n][id := players[n][id].(team := Some(team))]];
        players := players[n := players[n][id := players[n][id].(teamColor := Some(colors[team]))]];
        assert order[..i + 1] == order[..i] + [id];
        i := i + 1;
      }
      assert order[..i] == order;
      assert players[n] == LabelFrame(frame, n, classify, colors);
      assert forall k :: 0 <= k < |players| ==> players[k].Keys == old(players)[k].Keys;
    }

    /**
     * The ball-control pass: for every frame, ask the holder selection for
     * the player controlling the ball; flag that player's record and append
     * its team to the timeline, or repeat the timeline's last entry (None
     * while it is empty) when there is no holder.
     */
    method AssignBallControl(holder: HolderSelector) returns (control: seq<Option<TeamId>>)
      requires Valid() && BallTracked(ball, |players|)
      requires HoldersValid(players, Holders(players, ball, holder))
      requires HoldersLabelled(players, Holders(players, ball, holder))
      modifies this
      ensures Valid()
      ensures playerOrder == old(playerOrder) && ball == old(ball)
      ensures control == Timeline(old(players), Holders(old(players), ball, holder))
      ensures players == MarkAll(old(players), Holders(old(players), ball, holder))
    {
      ghost var frames := players;
      ghost var hs := Holders(frames, ball, holder);
      control := [];
      var n := 0;
      while n < |players|
        invariant 0 <= n <= |players| == |frames|
        invariant playerOrder == old(playerOrder) && ball == old(ball)
        invariant control == Timeline(frames[..n], hs[..n])
        invariant forall k :: 0 <= k < n ==> players[k] == MarkHolder(frames[k], hs[k])
        invariant forall k :: n <= k < |frames| ==> players[k] == frames[k]
      {
        var ballBox := ball[n][BallId].bbox;
        var selected := holder(players[n], ballBox);
        TimelineSnoc(frames, hs, n);
        if selected != NoHolder {
          players := players[n := players[n][selected := players[n][selected].(hasBall := true)]];
          control := control + [players[n][selected].team];
        } else {
          control := control + [if |control| > 0 then control[|control| - 1] else None];
        }
        n := n + 1;
      }
      assert frames[..n] == frames && hs[..n] == hs;
      assert players == MarkAll(frames, hs);
      assert forall k :: 0 <= k < |players| ==> players[k].Keys == frames[k].Keys;
    }
  }
}
