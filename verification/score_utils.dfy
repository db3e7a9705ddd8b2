/**
  Score arithmetic: a pawn's score after a move, the score transfer of a
  capture, and the per-colour sums that become the room's playerScores.
 */
module ScoreUtils {
  import opened LudoTypes
  import opened ScoreTable

  /** calculatePawnScore: the pawn's score after moving by a die value. */
  function CalculatePawnScore(p: Pawn, diceValue: int): (s: int)
    ensures s - p.score == diceValue
    ensures diceValue >= 0 ==> s >= p.score
  {
    p.score + diceValue
  }

  datatype CaptureScores = CaptureScores(strikerScore: int, victimScore: int)

  /** handleCapture: the striker takes the victim's score, the victim drops to 0. */
  function HandleCapture(striker: Pawn, victim: Pawn): (r: CaptureScores)
    ensures r.victimScore == 0
    ensures r.strikerScore + r.victimScore == striker.score + victim.score
  {
    CaptureScores(striker.score + victim.score, 0)
  }

  /** Sum of the scores of all pawns (a reference quantity, not in the source). */
  function TotalScore(ps: seq<Pawn>): int
    decreases |ps|
  {
    if |ps| == 0 then 0 else TotalScore(ps[..|ps| - 1]) + ps[|ps| - 1].score
  }

  /** calculatePlayerScore: the sum of the scores of the pawns of colour c. */
  function PlayerScore(ps: seq<Pawn>, c: Color): (s: int)
    ensures (forall i :: 0 <= i < |ps| ==> ps[i].color != c) ==> s == 0
    ensures (forall i :: 0 <= i < |ps| ==> ps[i].score >= 0) ==> s >= 0
    decreases |ps|
  {
    if |ps| == 0 then 0
    else
      var init := PlayerScore(ps[..|ps| - 1], c);
      var last := ps[|ps| - 1];
      if last.color == c then init + last.score else init
  }

  ghost predicate ScoresNonNegative(ps: seq<Pawn>)
  {
    forall i :: 0 <= i < |ps| ==> ps[i].score >= 0
  }

  /** Two pawn arrays that agree on every pawn's colour and score. */
  ghost predicate SameColorsAndScores(ps: seq<Pawn>, qs: seq<Pawn>)
  {
    |ps| == |qs| &&
    forall i :: 0 <= i < |ps| ==> ps[i].color == qs[i].color && ps[i].score == qs[i].score
  }

  /** The four colour sums partition the total score. */
  lemma {:induction false} PlayerScoresPartitionTotal(ps: seq<Pawn>)
    ensures PlayerScore(ps, Red) + PlayerScore(ps, Blue) + PlayerScore(ps, Green) + PlayerScore(ps, Yellow)
            == TotalScore(ps)
    decreases |ps|
  {
    if |ps| > 0 {
      PlayerScoresPartitionTotal(ps[..|ps| - 1]);
    }
  }

  /** Colour sums read only colours and scores: positions do not matter. */
  lemma {:induction false} PlayerScoreReadsOnlyScores(ps: seq<Pawn>, qs: seq<Pawn>, c: Color)
    requires SameColorsAndScores(ps, qs)
    ensures PlayerScore(ps, c) == PlayerScore(qs, c)
    decreases |ps|
  {
    if |ps| > 0 {
      PlayerScoreReadsOnlyScores(ps[..|ps| - 1], qs[..|qs| - 1], c);
    }
  }

  /** Replacing one pawn changes the total by the change in that pawn's score. */
  lemma {:induction false} TotalScoreUpdate(ps: seq<Pawn>, i: nat, p: Pawn)
    requires i < |ps|
    ensures TotalScore(ps[i := p]) == TotalScore(ps) - ps[i].score + p.score
    decreases |ps|
  {
    var n := |ps| - 1;
    if i < n {
      assert ps[i := p][..n] == ps[..n][i := p];
      TotalScoreUpdate(ps[..n], i, p);
    } else {
      assert ps[i := p][..n] == ps[..n];
    }
  }

  /**
    calculateAllPlayerScores: one key per colour held by a player, in the
    order the players hold them, each mapped to that colour's pawn sum.
   */
  function AllPlayerScores(ps: seq<Pawn>, players: seq<Player>): (t: Table)
    ensures DistinctKeys(t)
    ensures forall c :: c in Keys(t) <==> exists i :: 0 <= i < |players| && players[i].color == Some(c)
    ensures forall c :: c in Keys(t) ==> Get(t, c) == Some(PlayerScore(ps, c))
    ensures ScoresNonNegative(ps) ==> NonNegValues(t)
    decreases |players|
  {
    if |players| == 0 then []
    else
      var init := players[..|players| - 1];
      var t := AllPlayerScores(ps, init);
      var p := players[|players| - 1];
      assert forall i :: 0 <= i < |init| ==> init[i] == players[i];
      if p.color.Some? then Put(t, p.color.value, PlayerScore(ps, p.color.value)) else t
  }

  /** The reference table for n players coloured in join order: one entry per palette colour, in palette order. */
  function JoinOrderTable(ps: seq<Pawn>, n: nat): (t: Table)
    requires n <= 4
    ensures |t| == n
    ensures forall i :: 0 <= i < n ==> t[i] == Entry(COLORS[i], PlayerScore(ps, COLORS[i]))
  {
    if n == 0 then [] else JoinOrderTable(ps, n - 1) + [Entry(COLORS[n - 1], PlayerScore(ps, COLORS[n - 1]))]
  }

  /**
    Players coloured in join order produce a table whose entries follow the
    join order, one per player.
   */
  lemma {:induction false} AllPlayerScoresJoinOrder(ps: seq<Pawn>, players: seq<Player>)
    requires |players| <= 4
    requires forall i :: 0 <= i < |players| ==> players[i].color == Some(COLORS[i])
    ensures AllPlayerScores(ps, players) == JoinOrderTable(ps, |players|)
    decreases |players|
  {
    if |players| > 0 {
      var n := |players| - 1;
      var init := players[..n];
      assert forall i :: 0 <= i < n ==> init[i] == players[i];
      AllPlayerScoresJoinOrder(ps, init);
      NextColourIsNew(ps, players);
      PutNewKey(AllPlayerScores(ps, init), COLORS[n], PlayerScore(ps, COLORS[n]));
    }
  }

  /** The colour of the last player to join is not yet a key of the earlier players' table. */
  lemma NextColourIsNew(ps: seq<Pawn>, players: seq<Player>)
    requires 0 < |players| <= 4
    requires forall i :: 0 <= i < |players| ==> players[i].color == Some(COLORS[i])
    ensures var n := |players| - 1;
            && COLORS[n] !in Keys(AllPlayerScores(ps, players[..n]))
            && AllPlayerScores(ps, players) ==
                 Put(AllPlayerScores(ps, players[..n]), COLORS[n], PlayerScore(ps, COLORS[n]))
  {
    var n := |players| - 1;
    forall i | 0 <= i < n ensures players[..n][i].color != Some(COLORS[n]) {
      ColorsDistinct(i, n);
    }
  }

  /**
    Recomputing the table gives the same result for any two pawn arrays that
    agree on colours and scores; in particular recomputing twice without a
    score change in between is idempotent.
   */
  lemma {:induction false} AllPlayerScoresReadsOnlyScores(ps: seq<Pawn>, qs: seq<Pawn>, players: seq<Player>)
    requires SameColorsAndScores(ps, qs)
    ensures AllPlayerScores(ps, players) == AllPlayerScores(qs, players)
    decreases |players|
  {
    if |players| > 0 {
      AllPlayerScoresReadsOnlyScores(ps, qs, players[..|players| - 1]);
      var p := players[|players| - 1];
      if p.color.Some? {
        PlayerScoreReadsOnlyScores(ps, qs, p.color.value);
      }
    }
  }

  /** countCaptures: a placeholder that reports no captures for any colour. */
  function CountCaptures(ps: seq<Pawn>, c: Color): (n: int)
    ensures n == 0
  {
    0
  }
}
