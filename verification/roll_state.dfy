/**
  The stored die, as the room document actually holds it.

  The room schema declares rolledNumber without a default, and startGame
  never assigns it, so a freshly started room has no rolledNumber at all
  (undefined). Only changeMovingPlayer and endGame write null. The handlers
  compare with `=== null` and `!== null`, which tell the two apart. The rest
  of the model reads both as "no roll" (Option.None); this module keeps them
  apart, models the three comparisons as written, and shows what that does to
  the first turn of every game.
 */
module RollState {
  import opened LudoTypes
  import opened Chance
  import opened RoomModel
  import opened HandlersFunctions
  import opened GameHandler

  /** The three states of the stored field: never written, null, or a value. */
  datatype StoredRoll = Unset | Null | Stored(value: int)

  /** The stored field of a room; neverWritten says no assignment has reached it yet. */
  function StoredRollOf(room: Room, neverWritten: bool): (s: StoredRoll)
    ensures s.Stored? <==> room.rolledNumber.Some?
    ensures s.Stored? ==> s.value == room.rolledNumber.value
    ensures s == Unset <==> room.rolledNumber.None? && neverWritten
  {
    if room.rolledNumber.Some? then Stored(room.rolledNumber.value)
    else if neverWritten then Unset
    else Null
  }

  /**
    The checks of handleRollDice as written: the final test is
    `rolledNumber !== null`, so an unset roll is taken for a pending one.
    It differs from RollCheck exactly when the roll is unset and every other
    check passes.
   */
  function RollCheckAsWritten(session: Session, fetched: Option<Room>, neverWritten: bool): (e: Option<GameError>)
    ensures !neverWritten ==> e == RollCheck(session, fetched)
    ensures e.None? <==> RollCheck(session, fetched).None? && !neverWritten
    ensures e != RollCheck(session, fetched) ==> e == Some(MustMoveFirst) && RollCheck(session, fetched).None?
  {
    if session.roomId.None? then Some(NotInRoom)
    else if fetched.None? then Some(RoomNotFound)
    else if fetched.value.winner.Some? then Some(GameEnded)
    else if !fetched.value.started then Some(GameNotStarted)
    else
      var mover := CurrentMover(fetched.value);
      if mover.None? || session.playerId != Some(mover.value.id) then Some(NotYourTurn)
      else if StoredRollOf(fetched.value, neverWritten) != Null then Some(MustMoveFirst)
      else None
  }

  /**
    The checks of handleMovePawn as written: the roll test is
    `rolledNumber === null`, so an unset roll lets the move through to the
    pawn lookup. It differs from MoveCheck exactly when MoveCheck asks for a
    roll and the roll is unset.
   */
  function MoveCheckAsWritten(session: Session, fetched: Option<Room>, neverWritten: bool, pawnId: Option<int>): (e: Option<GameError>)
    ensures !neverWritten ==> e == MoveCheck(session, fetched, pawnId)
    ensures e == Some(MustRollFirst) <==> MoveCheck(session, fetched, pawnId) == Some(MustRollFirst) && !neverWritten
    ensures e != MoveCheck(session, fetched, pawnId) ==>
              neverWritten && MoveCheck(session, fetched, pawnId) == Some(MustRollFirst)
    ensures neverWritten && MoveCheck(session, fetched, pawnId) == Some(MustRollFirst) ==>
              (e.None? <==> pawnId.Some? && 0 <= pawnId.value < |fetched.value.pawns|)
  {
    if session.roomId.None? then Some(NotInRoom)
    else if fetched.None? then Some(RoomNotFound)
    else if fetched.value.winner.Some? then Some(GameEnded)
    else if !fetched.value.started then Some(GameNotStarted)
    else if StoredRollOf(fetched.value, neverWritten) == Null then Some(MustRollFirst)
    else if pawnId.None? then Some(MoveFailed)
    else if !(0 <= pawnId.value < |fetched.value.pawns|) then Some(PawnNotFound)
    else None
  }

  /**
    The roll step of makeRandomMove as written: it rolls only on
    `rolledNumber === null`, so over an unset roll it throws nothing.
   */
  function AutoRollAsWritten(room: Room, neverWritten: bool, dieDraw: Draw): (r: Room)
    ensures !neverWritten ==> r == AutoRoll(room, dieDraw)
    ensures neverWritten ==> r == room
    ensures r.rolledNumber.Some? <==> room.rolledNumber.Some? || !neverWritten
  {
    if StoredRollOf(room, neverWritten) == Null then room.(rolledNumber := Some(RollDice(dieDraw))) else room
  }

  /** handleRollDice as written: the checks above, then the same throw. */
  function HandleRollDiceAsWritten(session: Session, fetched: Option<Room>, neverWritten: bool, dieDraw: Draw,
                                   playerCanMove: (Player, Room, int) -> bool): (r: RollOutcome)
    ensures !neverWritten ==> r == HandleRollDice(session, fetched, dieDraw, playerCanMove)
    ensures r.Rolled? <==> RollCheck(session, fetched).None? && !neverWritten
    ensures neverWritten && RollCheck(session, fetched).None? ==> r == RollRejected(MustMoveFirst)
  {
    match RollCheckAsWritten(session, fetched, neverWritten)
    case Some(e) => RollRejected(e)
    case None => HandleRollDice(session, fetched, dieDraw, playerCanMove)
  }

  /** A lobby of two players, Red then Blue, neither ready nor moving, never rolled. */
  function TwoPlayerLobby(id: nat): (r: Room)
    ensures |r.players| == 2 && !r.started && r.winner.None? && r.rolledNumber.None?
  {
    NewRoom(id).(players := [Player(0, 0, "a", Some(Red), false, false),
                             Player(1, 1, "b", Some(Blue), false, false)])
  }

  /**
    After startGame the first player is moving and may roll, but may not move
    yet; nothing has written the roll. This holds for any lobby.
   */
  lemma {:induction false} FirstTurnRolls(lobby: Room, clock: Clock, session: Session, pawnId: Option<int>)
    requires |lobby.players| > 0 && lobby.winner.None? && lobby.rolledNumber.None?
    requires session.roomId.Some? && session.playerId == Some(lobby.players[0].id)
    ensures var room := StartGame(lobby, clock);
            && room.rolledNumber.None?
            && RollCheck(session, Some(room)).None?
            && MoveCheck(session, Some(room), pawnId) == Some(MustRollFirst)
  {
    var room := StartGame(lobby, clock);
    assert MoverIndex(room.players) == Some(0);
    assert room.players[0].id == lobby.players[0].id;
  }

  /**
    The same first turn as written, where the roll is unset: the mover's roll
    is refused with mustMoveFirst, and the roll check on a move is skipped.
   */
  lemma FirstTurnBlockedAsWritten(lobby: Room, clock: Clock, session: Session, pawnId: Option<int>)
    requires |lobby.players| > 0 && lobby.winner.None? && lobby.rolledNumber.None?
    requires session.roomId.Some? && session.playerId == Some(lobby.players[0].id)
    ensures var room := StartGame(lobby, clock);
            && RollCheckAsWritten(session, Some(room), true) == Some(MustMoveFirst)
            && MoveCheckAsWritten(session, Some(room), true, pawnId) != Some(MustRollFirst)
  {
    FirstTurnRolls(lobby, clock, session, pawnId);
  }

  /**
    A concrete game: Red and Blue start; Red's roll is refused as written but
    accepted by the corrected check, Red's move of pawn 0 passes the checks as
    written but is told to roll first by the corrected check, and the autoplay
    step throws no die as written but does in the corrected model.
   */
  lemma FirstTurnExample(clock: Clock, dieDraw: Draw)
    ensures var room := StartGame(TwoPlayerLobby(7), clock);
            var red := Session(Some(7), Some(0), Some(Red));
            && RollCheck(red, Some(room)).None?
            && RollCheckAsWritten(red, Some(room), true) == Some(MustMoveFirst)
            && MoveCheck(red, Some(room), Some(0)) == Some(MustRollFirst)
            && MoveCheckAsWritten(red, Some(room), true, Some(0)).None?
            && AutoRoll(room, dieDraw).rolledNumber.Some?
            && AutoRollAsWritten(room, true, dieDraw).rolledNumber.None?
  {
    var lobby := TwoPlayerLobby(7);
    var red := Session(Some(7), Some(0), Some(Red));
    FirstTurnRolls(lobby, clock, red, Some(0));
    assert |StartGame(lobby, clock).pawns| == 16;
  }
}
