/**
  What a capture does (beatPawns) and what a move does to the scores
  (movePawn): victims go home with nothing, one pawn of the attacking colour
  collects exactly what they held, and no score is created or lost.
 */
module CaptureProofs {
  import opened LudoTypes
  import opened Chance
  import opened ScoreTable
  import opened PawnQueries
  import opened ScoreUtils
  import opened RoomModel

  /** Sum of the scores of the pawns at the listed indices. */
  ghost function SumAt(ps: seq<Pawn>, idx: seq<nat>): int
    requires forall k :: 0 <= k < |idx| ==> idx[k] < |ps|
    decreases |idx|
  {
    if |idx| == 0 then 0 else SumAt(ps, idx[..|idx| - 1]) + ps[idx[|idx| - 1]].score
  }

  /** Sum of the scores of the pawns that pass `keep` (reference definition). */
  ghost function ScoreWhere(ps: seq<Pawn>, keep: Pawn -> bool): int
    decreases |ps|
  {
    if |ps| == 0 then 0
    else ScoreWhere(ps[..|ps| - 1], keep) + (if keep(ps[|ps| - 1]) then ps[|ps| - 1].score else 0)
  }

  lemma {:induction false} SumAtPrefix(ps: seq<Pawn>, n: nat, idx: seq<nat>)
    requires n <= |ps|
    requires forall k :: 0 <= k < |idx| ==> idx[k] < n
    ensures SumAt(ps, idx) == SumAt(ps[..n], idx)
    decreases |idx|
  {
    if |idx| > 0 {
      SumAtPrefix(ps, n, idx[..|idx| - 1]);
    }
  }

  /** Summing over the filtered indices is summing over the filter. */
  lemma {:induction false} SumAtIndicesWhere(ps: seq<Pawn>, keep: Pawn -> bool)
    ensures SumAt(ps, IndicesWhere(ps, keep)) == ScoreWhere(ps, keep)
    decreases |ps|
  {
    if |ps| > 0 {
      var n := |ps| - 1;
      var init := ps[..n];
      var idx := IndicesWhere(init, keep);
      SumAtIndicesWhere(init, keep);
      SumAtPrefix(ps, n, idx);
      assert ScoreWhere(ps, keep) == ScoreWhere(init, keep) + (if keep(ps[n]) then ps[n].score else 0);
      if keep(ps[n]) {
        assert IndicesWhere(ps, keep) == idx + [n];
        assert (idx + [n])[..|idx|] == idx;
        assert SumAt(ps, idx + [n]) == SumAt(ps, idx) + ps[n].score;
      } else {
        assert IndicesWhere(ps, keep) == idx;
      }
    }
  }

  /** A filter that keeps exactly one pawn sums to that pawn's score. */
  lemma {:induction false} ScoreWhereSingle(ps: seq<Pawn>, keep: Pawn -> bool, v: nat)
    requires v < |ps|
    requires forall i :: 0 <= i < |ps| ==> (keep(ps[i]) <==> i == v)
    ensures ScoreWhere(ps, keep) == ps[v].score
    decreases |ps|
  {
    var n := |ps| - 1;
    var init := ps[..n];
    if v < n {
      ScoreWhereSingle(init, keep, v);
    } else {
      ScoreWhereNone(init, keep);
    }
  }

  lemma {:induction false} ScoreWhereNone(ps: seq<Pawn>, keep: Pawn -> bool)
    requires forall i :: 0 <= i < |ps| ==> !keep(ps[i])
    ensures ScoreWhere(ps, keep) == 0
    decreases |ps|
  {
    if |ps| > 0 {
      ScoreWhereNone(ps[..|ps| - 1], keep);
    }
  }

  /** What one capture does to each pawn. */
  lemma CaptureStepAt(qs: seq<Pawn>, s: nat, v: nat, i: nat)
    requires s < |qs| && v < |qs| && i < |qs| && s != v
    ensures CaptureStep(qs, s, v)[i] ==
              if i == v then qs[i].(score := 0, position := qs[i].basePos)
              else if i == s then qs[i].(score := qs[i].score + qs[v].score)
              else qs[i]
  {
  }

  /** A pawn that is neither the striker nor a victim is untouched by the loop. */
  lemma {:induction false} ProcessVictimsUntouched(ps: seq<Pawn>, s: nat, victims: seq<nat>, i: nat)
    requires s < |ps| && i < |ps| && i != s && i !in victims
    requires forall k :: 0 <= k < |victims| ==> victims[k] < |ps| && victims[k] != s
    ensures ProcessVictims(ps, s, victims).pawns[i] == ps[i]
    decreases |victims|
  {
    if |victims| > 0 {
      var m := |victims| - 1;
      assert victims == victims[..m] + [victims[m]];
      ProcessVictimsUntouched(ps, s, victims[..m], i);
      CaptureStepAt(ProcessVictims(ps, s, victims[..m]).pawns, s, victims[m], i);
    }
  }

  /** Each victim ends on its base with score 0. */
  lemma {:induction false} ProcessVictimsReset(ps: seq<Pawn>, s: nat, victims: seq<nat>, i: nat)
    requires s < |ps| && i < |ps| && i in victims
    requires forall k :: 0 <= k < |victims| ==> victims[k] < |ps| && victims[k] != s
    requires forall k, l :: 0 <= k < l < |victims| ==> victims[k] != victims[l]
    ensures ProcessVictims(ps, s, victims).pawns[i] == ps[i].(score := 0, position := ps[i].basePos)
    decreases |victims|
  {
    var m := |victims| - 1;
    var init := victims[..m];
    assert victims == init + [victims[m]];
    CaptureStepAt(ProcessVictims(ps, s, init).pawns, s, victims[m], i);
    if i == victims[m] {
      assert i !in init;
      if |init| > 0 {
        ProcessVictimsUntouched(ps, s, init, i);
      }
    } else {
      assert i in init;
      ProcessVictimsReset(ps, s, init, i);
    }
  }

  /** The striker and the running total both collect the victims' summed score. */
  lemma {:induction false} ProcessVictimsStriker(ps: seq<Pawn>, s: nat, victims: seq<nat>)
    requires s < |ps|
    requires forall k :: 0 <= k < |victims| ==> victims[k] < |ps| && victims[k] != s
    requires forall k, l :: 0 <= k < l < |victims| ==> victims[k] != victims[l]
    ensures ProcessVictims(ps, s, victims).total == SumAt(ps, victims)
    ensures ProcessVictims(ps, s, victims).pawns[s] == ps[s].(score := ps[s].score + SumAt(ps, victims))
    decreases |victims|
  {
    if |victims| > 0 {
      var m := |victims| - 1;
      var init := victims[..m];
      var v := victims[m];
      assert victims == init + [v];
      assert v !in init;
      ProcessVictimsStriker(ps, s, init);
      ProcessVictimsUntouched(ps, s, init, v);
      CaptureStepAt(ProcessVictims(ps, s, init).pawns, s, v, s);
    }
  }

  /**
    The victims loop, whatever the order of distinct victims: each victim is
    reset to its base with score 0, the striker gains their summed score,
    and every other pawn is untouched.
   */
  lemma {:induction false} ProcessVictimsEffect(ps: seq<Pawn>, s: nat, victims: seq<nat>)
    requires s < |ps|
    requires forall k :: 0 <= k < |victims| ==> victims[k] < |ps| && victims[k] != s
    requires forall k, l :: 0 <= k < l < |victims| ==> victims[k] != victims[l]
    ensures ProcessVictims(ps, s, victims).total == SumAt(ps, victims)
    ensures ProcessVictims(ps, s, victims).pawns[s] == ps[s].(score := ps[s].score + SumAt(ps, victims))
    ensures forall i :: 0 <= i < |ps| && i in victims ==>
              ProcessVictims(ps, s, victims).pawns[i] == ps[i].(score := 0, position := ps[i].basePos)
    ensures forall i :: 0 <= i < |ps| && i != s && i !in victims ==> ProcessVictims(ps, s, victims).pawns[i] == ps[i]
  {
    ProcessVictimsStriker(ps, s, victims);
    forall i | 0 <= i < |ps| && i in victims
      ensures ProcessVictims(ps, s, victims).pawns[i] == ps[i].(score := 0, position := ps[i].basePos)
    {
      ProcessVictimsReset(ps, s, victims, i);
    }
    forall i | 0 <= i < |ps| && i != s && i !in victims
      ensures ProcessVictims(ps, s, victims).pawns[i] == ps[i]
    {
      ProcessVictimsUntouched(ps, s, victims, i);
    }
  }

  /** One capture moves the victim's score to the striker: the total is unchanged. */
  lemma CaptureStepConserves(qs: seq<Pawn>, s: nat, v: nat)
    requires s < |qs| && v < |qs| && v != s
    ensures TotalScore(CaptureStep(qs, s, v)) == TotalScore(qs)
  {
    var qs1 := qs[s := qs[s].(score := qs[s].score + qs[v].score)];
    TotalScoreUpdate(qs, s, qs1[s]);
    TotalScoreUpdate(qs1, v, qs1[v].(score := 0, position := qs1[v].basePos));
  }

  /** The victims loop moves score around without creating or losing any. */
  lemma {:induction false} ProcessVictimsConserves(ps: seq<Pawn>, s: nat, victims: seq<nat>)
    requires s < |ps|
    requires forall k :: 0 <= k < |victims| ==> victims[k] < |ps| && victims[k] != s
    ensures TotalScore(ProcessVictims(ps, s, victims).pawns) == TotalScore(ps)
    decreases |victims|
  {
    if |victims| > 0 {
      var m := |victims| - 1;
      ProcessVictimsConserves(ps, s, victims[..m]);
      CaptureStepConserves(ProcessVictims(ps, s, victims[..m]).pawns, s, victims[m]);
    }
  }

  /** The pawns a landing of `attacker` at `pos` captures. */
  ghost predicate IsVictim(room: Room, i: int, pos: int, attacker: Color)
  {
    0 <= i < |room.pawns| && room.pawns[i].position == pos && room.pawns[i].color != attacker
  }

  /**
    What a capture does to the pawns: every victim is back on its base with
    score 0, the striker `s` (a pawn of the attacking colour) gains `gain`,
    and every other pawn is untouched.
   */
  ghost predicate CaptureOutcome(room: Room, after: seq<Pawn>, pos: int, attacker: Color, s: nat, gain: int)
  {
    && s < |room.pawns| && room.pawns[s].color == attacker && |after| == |room.pawns|
    && (forall i :: IsVictim(room, i, pos, attacker) ==>
          after[i] == room.pawns[i].(score := 0, position := room.pawns[i].basePos))
    && after[s] == room.pawns[s].(score := room.pawns[s].score + gain)
    && (forall i :: 0 <= i < |room.pawns| && i != s && !IsVictim(room, i, pos, attacker) ==> after[i] == room.pawns[i])
  }

  /** What a capture does to the tally: a positive gain is added to the attacker's entry, nothing else changes. */
  ghost predicate TallyOutcome(before: Table, after: Table, attacker: Color, gain: int)
  {
    && (gain > 0 ==>
          GetOrZero(after, attacker) == GetOrZero(before, attacker) + gain &&
          forall c :: c != attacker ==> Get(after, c) == Get(before, c))
    && (gain <= 0 ==> after == before)
  }

  /** The striker beatPawns draws: a pawn of the attacking colour, when it has one. */
  lemma StrikerOf(room: Room, attacker: Color, draw: Draw) returns (s: nat)
    requires exists j :: 0 <= j < |room.pawns| && room.pawns[j].color == attacker
    ensures var strikers := IndicesWhere(room.pawns, OfColor(attacker));
            |strikers| > 0 && s == strikers[PickIndex(draw, |strikers|)]
    ensures s < |room.pawns| && room.pawns[s].color == attacker
  {
    var ps := room.pawns;
    var strikers := IndicesWhere(ps, OfColor(attacker));
    var j :| 0 <= j < |ps| && ps[j].color == attacker;
    assert OfColor(attacker)(ps[j]);
    assert j in strikers;
    s := strikers[PickIndex(draw, |strikers|)];
  }

  /** beatPawns moves score around without creating or losing any, whoever lands where. */
  lemma BeatPawnsConserves(room: Room, pos: int, attacker: Color, draw: Draw)
    ensures TotalScore(BeatPawns(room, pos, attacker, draw).pawns) == TotalScore(room.pawns)
  {
    var victims := IndicesWhere(room.pawns, VictimOf(pos, attacker));
    var strikers := IndicesWhere(room.pawns, OfColor(attacker));
    if |victims| > 0 && |strikers| > 0 {
      var s := strikers[PickIndex(draw, |strikers|)];
      ProcessVictimsConserves(room.pawns, s, victims);
    }
  }

  /** The pawns after beatPawns: the capture outcome for the drawn striker and the victims' summed score. */
  lemma BeatPawnsPawns(room: Room, pos: int, attacker: Color, draw: Draw) returns (s: nat)
    requires exists j :: 0 <= j < |room.pawns| && room.pawns[j].color == attacker
    ensures CaptureOutcome(room, BeatPawns(room, pos, attacker, draw).pawns, pos, attacker, s,
                           ScoreWhere(room.pawns, VictimOf(pos, attacker)))
    ensures TallyOutcome(room.playerCaptures, BeatPawns(room, pos, attacker, draw).playerCaptures, attacker,
                         ScoreWhere(room.pawns, VictimOf(pos, attacker)))
  {
    var victims := IndicesWhere(room.pawns, VictimOf(pos, attacker));
    SumAtIndicesWhere(room.pawns, VictimOf(pos, attacker));
    s := StrikerOf(room, attacker, draw);
    if |victims| > 0 {
      VictimCase(room, pos, attacker, draw, victims, s);
    } else {
      NoVictimCase(room, pos, attacker, draw, s);
    }
  }

  /**
    beatPawns, stated in full for a colour that has pawns: every victim is
    back on its base with score 0; one pawn of the attacking colour gains
    exactly the victims' summed score; every other pawn, including the
    attacker's other pawns, is untouched; total score is conserved; the
    attacker's capture tally grows by the sum only when it is positive; and
    playerScores is recomputed from the new pawns.
   */
  lemma BeatPawnsCapture(room: Room, pos: int, attacker: Color, draw: Draw) returns (s: nat)
    requires exists j :: 0 <= j < |room.pawns| && room.pawns[j].color == attacker
    ensures
      var r := BeatPawns(room, pos, attacker, draw);
      var gain := ScoreWhere(room.pawns, VictimOf(pos, attacker));
      && TotalScore(r.pawns) == TotalScore(room.pawns)
      && CaptureOutcome(room, r.pawns, pos, attacker, s, gain)
      && TallyOutcome(room.playerCaptures, r.playerCaptures, attacker, gain)
      && r.playerScores == AllPlayerScores(r.pawns, room.players)
  {
    BeatPawnsConserves(room, pos, attacker, draw);
    s := BeatPawnsPawns(room, pos, attacker, draw);
  }

  /** A pawn of the attacking colour keeps its square through beatPawns. */
  lemma BeatPawnsKeepsAttackerSquare(room: Room, pos: int, attacker: Color, draw: Draw, i: nat)
    requires i < |room.pawns| && room.pawns[i].color == attacker
    ensures BeatPawns(room, pos, attacker, draw).pawns[i].position == room.pawns[i].position
  {
    var s := BeatPawnsPawns(room, pos, attacker, draw);
    assert !IsVictim(room, i, pos, attacker);
  }

  /** The victims are exactly the indices IndicesWhere lists for VictimOf. */
  lemma VictimsListed(room: Room, pos: int, attacker: Color)
    ensures forall i :: IsVictim(room, i, pos, attacker) <==>
              0 <= i < |room.pawns| && i in IndicesWhere(room.pawns, VictimOf(pos, attacker))
  {
  }

  lemma NoVictimCase(room: Room, pos: int, attacker: Color, draw: Draw, s: nat)
    requires |IndicesWhere(room.pawns, VictimOf(pos, attacker))| == 0
    requires s < |room.pawns| && room.pawns[s].color == attacker
    ensures var r := BeatPawns(room, pos, attacker, draw);
            && r.pawns == room.pawns && r.playerCaptures == room.playerCaptures
            && CaptureOutcome(room, r.pawns, pos, attacker, s, 0)
  {
    VictimsListed(room, pos, attacker);
    assert room.pawns[s] == room.pawns[s].(score := room.pawns[s].score + 0);
  }

  lemma VictimCase(room: Room, pos: int, attacker: Color, draw: Draw, victims: seq<nat>, s: nat)
    requires victims == IndicesWhere(room.pawns, VictimOf(pos, attacker)) && |victims| > 0
    requires var strikers := IndicesWhere(room.pawns, OfColor(attacker));
             |strikers| > 0 && s == strikers[PickIndex(draw, |strikers|)]
    requires s < |room.pawns| && room.pawns[s].color == attacker
    ensures
      var r := BeatPawns(room, pos, attacker, draw);
      var gain := SumAt(room.pawns, victims);
      && TotalScore(r.pawns) == TotalScore(room.pawns)
      && CaptureOutcome(room, r.pawns, pos, attacker, s, gain)
      && TallyOutcome(room.playerCaptures, r.playerCaptures, attacker, gain)
  {
    var ps := room.pawns;
    VictimsListed(room, pos, attacker);
    var cap := ProcessVictims(ps, s, victims);
    ProcessVictimsEffect(ps, s, victims);
    ProcessVictimsConserves(ps, s, victims);
    var r := BeatPawns(room, pos, attacker, draw);
    assert r.pawns == cap.pawns;
    assert r.playerCaptures == AddCaptures(room.playerCaptures, attacker, cap.total);
  }

  /**
    With a single victim, beatPawns gives the striker and the victim exactly
    the scores handleCapture computes for that pair.
   */
  lemma BeatPawnsAgreesWithHandleCapture(room: Room, pos: int, attacker: Color, draw: Draw, v: nat) returns (s: nat)
    requires exists j :: 0 <= j < |room.pawns| && room.pawns[j].color == attacker
    requires v < |room.pawns|
    requires forall i :: IsVictim(room, i, pos, attacker) <==> i == v
    ensures s < |room.pawns| && room.pawns[s].color == attacker
    ensures BeatPawns(room, pos, attacker, draw).pawns[s].score == HandleCapture(room.pawns[s], room.pawns[v]).strikerScore
    ensures BeatPawns(room, pos, attacker, draw).pawns[v].score == HandleCapture(room.pawns[s], room.pawns[v]).victimScore
  {
    SingleVictimGain(room, pos, attacker, v);
    s := BeatPawnsPawns(room, pos, attacker, draw);
    assert IsVictim(room, v, pos, attacker);
  }

  /** With a single victim, the captured total is that victim's score. */
  lemma SingleVictimGain(room: Room, pos: int, attacker: Color, v: nat)
    requires v < |room.pawns|
    requires forall i :: IsVictim(room, i, pos, attacker) <==> i == v
    ensures ScoreWhere(room.pawns, VictimOf(pos, attacker)) == room.pawns[v].score
  {
    forall i | 0 <= i < |room.pawns|
      ensures VictimOf(pos, attacker)(room.pawns[i]) <==> i == v
    {
      assert IsVictim(room, i, pos, attacker) <==> i == v;
    }
    ScoreWhereSingle(room.pawns, VictimOf(pos, attacker), v);
  }

  /**
    movePawn: the moved pawn lands on the square the geometry gives, the
    room's total score grows by exactly the rolled number when the square
    changed and by nothing when it did not (captures only move score
    around), and playerScores is recomputed.
   */
  lemma MovePawnScoring(room: Room, k: nat, geo: Geometry, draw: Draw)
    requires k < |room.pawns| && room.rolledNumber.Some?
    ensures
      var r := MovePawn(room, k, geo, draw);
      var p := room.pawns[k];
      var d := room.rolledNumber.value;
      var target := geo.positionAfterMove(p, d);
      && r.pawns[k].position == target
      && TotalScore(r.pawns) == TotalScore(room.pawns) + (if target != p.position then d else 0)
      && r.playerScores == AllPlayerScores(r.pawns, room.players)
  {
    var p := room.pawns[k];
    var d := room.rolledNumber.value;
    var target := geo.positionAfterMove(p, d);
    var a := Advance(room, k, geo);
    assert a.pawns[k].color == p.color;
    BeatPawnsConserves(a, target, p.color, draw);
    BeatPawnsKeepsAttackerSquare(a, target, p.color, draw, k);
    assert a.pawns == room.pawns[k := a.pawns[k]];
    TotalScoreUpdate(room.pawns, k, a.pawns[k]);
  }
}
