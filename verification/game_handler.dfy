/**
  The in-game actions of backend/handlers/gameHandler.js: moving a pawn and
  rolling the die. Each handler checks its preconditions in a fixed order and
  either rejects with the first failing check (saving nothing) or saves a new
  room. The room read from storage, the random draws, the clock and the
  player-level "can move" test are parameters.
 */
module GameHandler {
  import opened LudoTypes
  import opened Chance
  import opened RoomModel
  import opened HandlersFunctions

  /** The error events the two handlers emit. */
  datatype GameError =
    | NotInRoom
    | RoomNotFound
    | GameEnded
    | GameNotStarted
    | MustRollFirst
    | PawnNotFound
    | InvalidMove
    | MoveFailed     // an exception caught by the move handler
    | NotYourTurn
    | MustMoveFirst
    | RollFailed     // an exception caught by the roll handler

  // ------------------------------------------------------------------- move

  datatype MoveOutcome = MoveRejected(error: GameError) | MoveSaved(room: Room)

  /**
    The checks of handleMovePawn that come before the move, in source order.
    `pawnId` is absent when the client sent none; pawn ids are indices.
   */
  function MoveCheck(session: Session, fetched: Option<Room>, pawnId: Option<int>): (e: Option<GameError>)
    ensures e == Some(NotInRoom) <==> session.roomId.None?
    ensures e == Some(RoomNotFound) <==> session.roomId.Some? && fetched.None?
    ensures e == Some(GameEnded) <==> session.roomId.Some? && fetched.Some? && fetched.value.winner.Some?
    ensures e == Some(GameNotStarted) <==>
              session.roomId.Some? && fetched.Some? && fetched.value.winner.None? && !fetched.value.started
    ensures e == Some(MustRollFirst) <==>
              session.roomId.Some? && fetched.Some? && fetched.value.winner.None? && fetched.value.started &&
              fetched.value.rolledNumber.None?
    ensures e == Some(MoveFailed) <==>
              session.roomId.Some? && fetched.Some? && fetched.value.winner.None? && fetched.value.started &&
              fetched.value.rolledNumber.Some? && pawnId.None?
    ensures e == Some(PawnNotFound) <==>
              session.roomId.Some? && fetched.Some? && fetched.value.winner.None? && fetched.value.started &&
              fetched.value.rolledNumber.Some? && pawnId.Some? && !(0 <= pawnId.value < |fetched.value.pawns|)
    ensures e.None? <==>
              session.roomId.Some? && fetched.Some? && fetched.value.winner.None? && fetched.value.started &&
              fetched.value.rolledNumber.Some? && pawnId.Some? && 0 <= pawnId.value < |fetched.value.pawns|
  {
    if session.roomId.None? then Some(NotInRoom)
    else if fetched.None? then Some(RoomNotFound)
    else if fetched.value.winner.Some? then Some(GameEnded)
    else if !fetched.value.started then Some(GameNotStarted)
    else if fetched.value.rolledNumber.None? then Some(MustRollFirst)
    else if pawnId.None? then Some(MoveFailed)
    else if !(0 <= pawnId.value < |fetched.value.pawns|) then Some(PawnNotFound)
    else None
  }

  /**
    The outcome of a valid move: the pawn moves; if some colour now has all
    its pawns home the game ends there and the turn stays, otherwise the
    turn passes.
   */
  function MoveOutcomeOf(room: Room, k: nat, geo: Geometry, draw: Draw, clock: Clock): (r: Room)
    requires k < |room.pawns| && room.rolledNumber.Some?
    ensures var moved := MovePawn(room, k, geo, draw);
            GetWinner(moved).Some? ==> r == EndGame(moved, GetWinner(moved).value)
    ensures var moved := MovePawn(room, k, geo, draw);
            GetWinner(moved).None? ==> r == ChangeMovingPlayer(moved, clock)
  {
    var moved := MovePawn(room, k, geo, draw);
    match GetWinner(moved)
    case Some(w) => EndGame(moved, w)
    case None => ChangeMovingPlayer(moved, clock)
  }

  /** handleMovePawn. */
  function HandleMovePawn(session: Session, fetched: Option<Room>, pawnId: Option<int>,
                          geo: Geometry, draw: Draw, clock: Clock): (r: MoveOutcome)
    ensures MoveCheck(session, fetched, pawnId).Some? ==> r == MoveRejected(MoveCheck(session, fetched, pawnId).value)
    ensures MoveCheck(session, fetched, pawnId).None? ==>
              var room := fetched.value;
              var k := pawnId.value;
              match IsMoveValid(session, room.pawns[k], room)
              case None => r == MoveRejected(MoveFailed)
              case Some(false) => r == MoveRejected(InvalidMove)
              case Some(true) => r == MoveSaved(MoveOutcomeOf(room, k, geo, draw, clock))
  {
    match MoveCheck(session, fetched, pawnId)
    case Some(e) => MoveRejected(e)
    case None =>
      var room := fetched.value;
      var k := pawnId.value;
      match IsMoveValid(session, room.pawns[k], room)
      case None => MoveRejected(MoveFailed)
      case Some(false) => MoveRejected(InvalidMove)
      case Some(true) => MoveSaved(MoveOutcomeOf(room, k, geo, draw, clock))
  }

  /**
    A move is saved exactly when every check passes and the session holds
    the moving player of the pawn's colour.
   */
  lemma HandleMovePawnSavesOnlyOwnMove(session: Session, fetched: Option<Room>, pawnId: Option<int>,
                                       geo: Geometry, draw: Draw, clock: Clock)
    ensures HandleMovePawn(session, fetched, pawnId, geo, draw, clock).MoveSaved? <==>
              && session.roomId.Some? && fetched.Some?
              && fetched.value.winner.None? && fetched.value.started && fetched.value.rolledNumber.Some?
              && pawnId.Some? && 0 <= pawnId.value < |fetched.value.pawns|
              && session.color == Some(fetched.value.pawns[pawnId.value].color)
              && CurrentMover(fetched.value).Some?
              && session.playerId == Some(CurrentMover(fetched.value).value.id)
  {
    if MoveCheck(session, fetched, pawnId).None? {
      var room := fetched.value;
      var k := pawnId.value;
      var v := IsMoveValid(session, room.pawns[k], room);
      assert v == Some(true) || v == Some(false) || v.None?;
    }
  }

  // ------------------------------------------------------------------- roll

  datatype RollOutcome =
    | RollRejected(error: GameError)
    | Rolled(room: Room, value: int, deferTurnChange: bool)

  /** The checks of handleRollDice, in source order. */
  function RollCheck(session: Session, fetched: Option<Room>): (e: Option<GameError>)
    ensures e == Some(NotInRoom) <==> session.roomId.None?
    ensures e == Some(RoomNotFound) <==> session.roomId.Some? && fetched.None?
    ensures e == Some(GameEnded) <==> session.roomId.Some? && fetched.Some? && fetched.value.winner.Some?
    ensures e == Some(GameNotStarted) <==>
              session.roomId.Some? && fetched.Some? && fetched.value.winner.None? && !fetched.value.started
    ensures e == Some(NotYourTurn) <==>
              session.roomId.Some? && fetched.Some? && fetched.value.winner.None? && fetched.value.started &&
              (CurrentMover(fetched.value).None? || session.playerId != Some(CurrentMover(fetched.value).value.id))
    ensures e == Some(MustMoveFirst) <==>
              session.roomId.Some? && fetched.Some? && fetched.value.winner.None? && fetched.value.started &&
              CurrentMover(fetched.value).Some? && session.playerId == Some(CurrentMover(fetched.value).value.id) &&
              fetched.value.rolledNumber.Some?
    ensures e.None? <==>
              session.roomId.Some? && fetched.Some? && fetched.value.winner.None? && fetched.value.started &&
              CurrentMover(fetched.value).Some? && session.playerId == Some(CurrentMover(fetched.value).value.id) &&
              fetched.value.rolledNumber.None?
  {
    if session.roomId.None? then Some(NotInRoom)
    else if fetched.None? then Some(RoomNotFound)
    else if fetched.value.winner.Some? then Some(GameEnded)
    else if !fetched.value.started then Some(GameNotStarted)
    else
      var mover := CurrentMover(fetched.value);
      if mover.None? || session.playerId != Some(mover.value.id) then Some(NotYourTurn)
      else if fetched.value.rolledNumber.Some? then Some(MustMoveFirst)
      else None
  }

  /**
    handleRollDice: after the checks the die is thrown and stored. When the
    rolling player cannot move with it (`playerCanMove`, given), a deferred
    turn change is armed. The player is looked up by the session's id, which
    the checks have just matched to the mover.
   */
  function HandleRollDice(session: Session, fetched: Option<Room>, dieDraw: Draw,
                          playerCanMove: (Player, Room, int) -> bool): (r: RollOutcome)
    ensures RollCheck(session, fetched).Some? ==> r == RollRejected(RollCheck(session, fetched).value)
    ensures RollCheck(session, fetched).None? ==> r.Rolled?
    ensures r.Rolled? ==>
              && r.value == RollDice(dieDraw)
              && r.room == fetched.value.(rolledNumber := Some(r.value))
              && var k := PlayerIndex(fetched.value.players, session.playerId.value).value;
                 r.deferTurnChange == !playerCanMove(fetched.value.players[k], r.room, r.value)
  {
    match RollCheck(session, fetched)
    case Some(e) => RollRejected(e)
    case None =>
      var room := fetched.value;
      var v := RollDice(dieDraw);
      var rolled := room.(rolledNumber := Some(v));
      var mover := MoverIndex(room.players).value;
      assert room.players[mover].id == session.playerId.value;
      var k := PlayerIndex(room.players, session.playerId.value).value;
      Rolled(rolled, v, !playerCanMove(room.players[k], rolled, v))
  }

  /**
    A successful roll stores a value in 0..6 and changes nothing else: in
    particular the mover stays the same, and it is the session's player.
   */
  lemma HandleRollDiceOutcome(session: Session, fetched: Option<Room>, dieDraw: Draw,
                              playerCanMove: (Player, Room, int) -> bool)
    requires RollCheck(session, fetched).None?
    ensures var r := HandleRollDice(session, fetched, dieDraw, playerCanMove);
            && r.Rolled?
            && 0 <= r.value <= 6 && r.room.rolledNumber == Some(r.value)
            && r.room.players == fetched.value.players
            && CurrentMover(r.room) == CurrentMover(fetched.value)
            && r.room.pawns == fetched.value.pawns
            && CurrentMover(r.room).value.id == session.playerId.value
  {
  }

  /** Every face 1..6 is a possible successful roll. */
  lemma HandleRollDiceReachesAll(session: Session, fetched: Option<Room>, playerCanMove: (Player, Room, int) -> bool, v: int)
    requires RollCheck(session, fetched).None? && 1 <= v <= 6
    ensures exists d: Draw :: HandleRollDice(session, fetched, d, playerCanMove) == Rolled(fetched.value.(rolledNumber := Some(v)), v, HandleRollDice(session, fetched, d, playerCanMove).deferTurnChange)
  {
    RollDiceReachesAll(v);
    var d: Draw :| RollDice(d) == v;
    var r := HandleRollDice(session, fetched, d, playerCanMove);
    assert r == Rolled(fetched.value.(rolledNumber := Some(v)), v, r.deferTurnChange);
  }

  /**
    The deferred turn change: it reads the room again and passes the turn
    only if the stored roll is still the value that was rolled; None means
    nothing is saved.
   */
  function DeferredTurnChange(reread: Option<Room>, rolled: int, clock: Clock): (r: Option<Room>)
    ensures r.Some? <==> reread.Some? && reread.value.rolledNumber == Some(rolled)
    ensures r.Some? ==> r.value == ChangeMovingPlayer(reread.value, clock)
  {
    if reread.Some? && reread.value.rolledNumber == Some(rolled) then Some(ChangeMovingPlayer(reread.value, clock))
    else None
  }

  /**
    The deferred change fires at most once per roll: in a room without a
    winner it clears the roll, so reading its own result back it does
    nothing; and once a move has been made (which passes the turn and
    clears the roll), it does nothing either.
   */
  lemma DeferredTurnChangeOnce(reread: Room, rolled: int, clock: Clock)
    requires reread.winner.None?
    ensures var once := DeferredTurnChange(Some(reread), rolled, clock);
            once.Some? ==> DeferredTurnChange(once, rolled, clock).None?
  {
  }

  /** After a valid move without a winner the roll is cleared, so a pending deferred change does nothing. */
  lemma DeferredTurnChangeAfterMove(room: Room, k: nat, geo: Geometry, draw: Draw, clock: Clock, later: Clock, rolled: int)
    requires k < |room.pawns| && room.rolledNumber.Some? && room.winner.None?
    ensures DeferredTurnChange(Some(MoveOutcomeOf(room, k, geo, draw, clock)), rolled, later).None?
  {
    var moved := MovePawn(room, k, geo, draw);
    assert moved.winner == room.winner;
  }
}
