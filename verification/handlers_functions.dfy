/**
  The helpers of backend/handlers/handlersFunctions.js: the die roll, the
  "is this move yours" test, and the autoplay step that plays for a player
  whose move time ran out. The room read from storage, the clock and the
  random draws are parameters.
 */
module HandlersFunctions {
  import opened LudoTypes
  import opened Chance
  import opened ScoreTable
  import opened ScoreUtils
  import opened RoomModel

  // ---------------------------------------------------------------- the die

  /**
    rollDice: Math.ceil(Math.random() * 6) for the draw num/den, i.e. the
    least v with 6 * num <= v * den. It lies in 0..6, and is 0 exactly when
    the draw is 0.
   */
  function RollDice(d: Draw): (v: int)
    ensures (v - 1) * d.den < 6 * d.num <= v * d.den
    ensures 0 <= v <= 6
    ensures v == 0 <==> d.num == 0
  {
    var v := (6 * d.num + d.den - 1) / d.den;
    DivBounds(6 * d.num + d.den - 1, d.den);
    assert d.den * v <= 6 * d.num + d.den - 1 < d.den * v + d.den;
    assert (v - 1) * d.den == d.den * v - d.den;
    assert (v - 1) * d.den < 6 * d.num;
    assert 6 * d.num <= v * d.den;
    assert 6 * d.num < 6 * d.den;
    assert (v - 1) * d.den < 6 * d.den;
    MulMonotone(v - 1, 6, d.den);
    v
  }

  /** Every face 1..6 comes up for some draw. */
  lemma RollDiceReachesAll(v: int)
    requires 1 <= v <= 6
    ensures exists d: Draw :: RollDice(d) == v
  {
    var d: Draw := Fraction(2 * v - 1, 12);
    var w := RollDice(d);
    assert (w - 1) * 12 < 6 * (2 * v - 1) <= w * 12;
    assert d.num == 2 * v - 1 && d.den == 12;
    assert w == v;
  }

  // ---------------------------------------------------------- move validity

  /**
    isMoveValid: the session's colour must be the pawn's colour, and the
    session's player must be the current mover. None stands for the
    TypeError the source raises when the colours match but nobody moves.
   */
  function IsMoveValid(session: Session, pawn: Pawn, room: Room): (r: Option<bool>)
    ensures r.None? <==> session.color == Some(pawn.color) && CurrentMover(room).None?
    ensures r == Some(true) <==>
              session.color == Some(pawn.color) &&
              CurrentMover(room).Some? && session.playerId == Some(CurrentMover(room).value.id)
  {
    if session.color != Some(pawn.color) then Some(false)
    else
      match CurrentMover(room)
      case None => None
      case Some(mover) => Some(session.playerId == Some(mover.id))
  }

  // --------------------------------------------------------------- autoplay

  /** What one autoplay step ends with. */
  datatype Autoplay =
    | Crashed        // the step throws before saving anything
    | Idle           // the step returns without saving
    | Saved(room: Room)

  /** The roll of the autoplay step: a die is thrown only when no roll is pending. */
  function AutoRoll(room: Room, dieDraw: Draw): (r: Room)
    ensures r.rolledNumber.Some?
    ensures room.rolledNumber.Some? ==> r == room
    ensures room.rolledNumber.None? ==> r == room.(rolledNumber := r.rolledNumber) && 0 <= r.rolledNumber.value <= 6
  {
    if room.rolledNumber.None? then room.(rolledNumber := Some(RollDice(dieDraw))) else room
  }

  /**
    The move of the autoplay step: one pawn drawn from those the mover can
    move goes forward, and scores are recomputed; with no such pawn nothing
    changes.
   */
  function AutoMove(room: Room, geo: Geometry, pawnDraw: Draw, strikerDraw: Draw): (r: Room)
    requires MoverIndex(room.players).Some? && room.rolledNumber.Some?
    ensures |PawnsThatCanMove(room, geo)| == 0 ==> r == room
    ensures |PawnsThatCanMove(room, geo)| > 0 ==>
              exists k :: k in PawnsThatCanMove(room, geo) && r == UpdatePlayerScores(MovePawn(room, k, geo, strikerDraw))
  {
    var movable := PawnsThatCanMove(room, geo);
    if |movable| > 0 then
      var k := movable[PickIndex(pawnDraw, |movable|)];
      assert k in movable;
      UpdatePlayerScores(MovePawn(room, k, geo, strikerDraw))
    else room
  }

  /**
    makeRandomMove on the room read from storage. A missing room, or a
    missing mover once the roll is made, makes the step throw. A room with
    a winner is left alone. An expired game with a score winner ends with
    that winner. Otherwise the step rolls if needed, moves a random movable
    pawn, passes the turn, and ends the game if a colour has all its pawns
    home.
   */
  function MakeRandomMove(fetched: Option<Room>, clock: Clock, geo: Geometry,
                          dieDraw: Draw, pawnDraw: Draw, strikerDraw: Draw): (r: Autoplay)
    ensures r.Idle? <==> fetched.Some? && fetched.value.winner.Some?
    ensures fetched.None? ==> r.Crashed?
    ensures fetched.Some? && fetched.value.winner.None? && IsGameTimeExpired(fetched.value, clock.now) &&
            WinnerByScore(fetched.value.playerScores, fetched.value.playerCaptures).Some? ==>
              r == Saved(EndGame(fetched.value, WinnerByScore(fetched.value.playerScores, fetched.value.playerCaptures).value))
    ensures r.Crashed? <==>
              fetched.None? ||
              (fetched.value.winner.None? &&
               !(IsGameTimeExpired(fetched.value, clock.now) &&
                 WinnerByScore(fetched.value.playerScores, fetched.value.playerCaptures).Some?) &&
               MoverIndex(fetched.value.players).None?)
  {
    match fetched
    case None => Crashed
    case Some(room) =>
      if room.winner.Some? then Idle
      else
        var scoreWinner := WinnerByScore(room.playerScores, room.playerCaptures);
        if IsGameTimeExpired(room, clock.now) && scoreWinner.Some? then Saved(EndGame(room, scoreWinner.value))
        else
          var rolled := AutoRoll(room, dieDraw);
          if MoverIndex(rolled.players).None? then Crashed
          else
            var moved := AutoMove(rolled, geo, pawnDraw, strikerDraw);
            var turned := ChangeMovingPlayer(moved, clock);
            match GetWinner(turned)
            case Some(w) => Saved(EndGame(turned, w))
            case None => Saved(turned)
  }

  /** The regular path of makeRandomMove: roll if needed, move, pass the turn, check for a winner. */
  ghost predicate RegularStep(room: Room, clock: Clock)
  {
    room.winner.None? &&
    !(IsGameTimeExpired(room, clock.now) && WinnerByScore(room.playerScores, room.playerCaptures).Some?) &&
    MoverIndex(room.players).Some?
  }

  /**
    On the regular path the saved room is the moved room with the turn
    passed, and with the game ended when, after the move, some colour has
    all four pawns home: the winner check follows the turn change. A proof
    helper for the invariant proofs; MakeRandomMove states the step itself.
   */
  lemma MakeRandomMoveRegular(room: Room, clock: Clock, geo: Geometry, dieDraw: Draw, pawnDraw: Draw, strikerDraw: Draw)
    requires RegularStep(room, clock)
    ensures
      var rolled := AutoRoll(room, dieDraw);
      var turned := ChangeMovingPlayer(AutoMove(rolled, geo, pawnDraw, strikerDraw), clock);
      MakeRandomMove(Some(room), clock, geo, dieDraw, pawnDraw, strikerDraw) ==
        Saved(if GetWinner(turned).Some? then EndGame(turned, GetWinner(turned).value) else turned)
  {
  }

  /** With a roll already pending, the die draw plays no part in the step. */
  lemma MakeRandomMoveKeepsPendingRoll(fetched: Option<Room>, clock: Clock, geo: Geometry,
                                       d1: Draw, d2: Draw, pawnDraw: Draw, strikerDraw: Draw)
    requires fetched.Some? && fetched.value.rolledNumber.Some?
    ensures MakeRandomMove(fetched, clock, geo, d1, pawnDraw, strikerDraw) ==
            MakeRandomMove(fetched, clock, geo, d2, pawnDraw, strikerDraw)
  {
    assert AutoRoll(fetched.value, d1) == AutoRoll(fetched.value, d2);
  }

  /**
    Recomputing scores right after a move changes nothing: movePawn has
    already recomputed them from the same pawns and players.
   */
  lemma RescoreAfterMove(room: Room, k: nat, geo: Geometry, draw: Draw)
    requires k < |room.pawns| && room.rolledNumber.Some?
    ensures UpdatePlayerScores(MovePawn(room, k, geo, draw)) == MovePawn(room, k, geo, draw)
  {
    var m := MovePawn(room, k, geo, draw);
    assert m.playerScores == AllPlayerScores(m.pawns, m.players);
  }

  /** Every pawn the mover can move is the one autoplay moves for some draw. */
  lemma AutoMoveReachesAll(room: Room, geo: Geometry, k: nat, strikerDraw: Draw)
    requires MoverIndex(room.players).Some? && room.rolledNumber.Some?
    requires k in PawnsThatCanMove(room, geo)
    ensures exists pawnDraw: Draw :: AutoMove(room, geo, pawnDraw, strikerDraw) == MovePawn(room, k, geo, strikerDraw)
  {
    var movable := PawnsThatCanMove(room, geo);
    var i :| 0 <= i < |movable| && movable[i] == k;
    PickIndexReachesAll(|movable|, i);
    var d: Draw :| PickIndex(d, |movable|) == i;
    RescoreAfterMove(room, k, geo, strikerDraw);
    assert AutoMove(room, geo, d, strikerDraw) == MovePawn(room, k, geo, strikerDraw);
  }
}
