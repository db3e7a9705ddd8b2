/**
  The two invariants of a room and which actions keep them.

  Valid is structural: sixteen well-formed pawns with non-negative scores,
  at most four players coloured in join order, an accurate `full` flag, a
  roll within 0..6, and score and capture tables with one non-negative entry
  per key.

  TurnInvariant is about whose turn it is: a started game without a winner
  has exactly one moving player, any other room has none; a pending roll
  and a winner only occur in started games, and a game end time only once
  the game has started.

  Every action keeps both, except handleReady in a started game, which can
  re-run startGame and leave two players moving.
 */
module Invariants {
  import opened LudoTypes
  import opened Chance
  import opened ScoreTable
  import opened PawnQueries
  import opened ScoreUtils
  import opened RoomModel
  import opened CaptureProofs
  import opened WinnerProofs
  import opened HandlersFunctions
  import GH = GameHandler
  import PH = PlayerHandler

  // ---------------------------------------------------------------- movers

  /** Number of players flagged as moving. */
  function MoverCount(players: seq<Player>): nat
    decreases |players|
  {
    if |players| == 0 then 0
    else MoverCount(players[..|players| - 1]) + (if players[|players| - 1].nowMoving then 1 else 0)
  }

  /** Replacing one player changes the count by the change in that player's flag. */
  lemma {:induction false} MoverCountUpdate(ps: seq<Player>, i: nat, p: Player)
    requires i < |ps|
    ensures MoverCount(ps[i := p]) ==
            MoverCount(ps) - (if ps[i].nowMoving then 1 else 0) + (if p.nowMoving then 1 else 0)
    decreases |ps|
  {
    var n := |ps| - 1;
    if i < n {
      assert ps[i := p][..n] == ps[..n][i := p];
      MoverCountUpdate(ps[..n], i, p);
    } else {
      assert ps[i := p][..n] == ps[..n];
    }
  }

  /** Nobody moves exactly when the count is 0. */
  lemma {:induction false} MoverCountZero(ps: seq<Player>)
    ensures MoverCount(ps) == 0 <==> forall j :: 0 <= j < |ps| ==> !ps[j].nowMoving
    decreases |ps|
  {
    if |ps| > 0 {
      var n := |ps| - 1;
      MoverCountZero(ps[..n]);
      assert forall j :: 0 <= j < n ==> ps[..n][j] == ps[j];
    }
  }

  /** The count is 1 exactly when one player moves and no other does. */
  lemma MoverCountOne(ps: seq<Player>, k: nat)
    requires k < |ps| && ps[k].nowMoving
    ensures MoverCount(ps) == 1 <==> forall j :: 0 <= j < |ps| && j != k ==> !ps[j].nowMoving
  {
    var cleared := ps[k := ps[k].(nowMoving := false)];
    MoverCountUpdate(ps, k, ps[k].(nowMoving := false));
    MoverCountZero(cleared);
    assert forall j :: 0 <= j < |ps| && j != k ==> cleared[j] == ps[j];
  }

  /** A count of 1 means the first mover is the only one. */
  lemma SoleMover(ps: seq<Player>)
    requires MoverCount(ps) == 1
    ensures MoverIndex(ps).Some?
    ensures forall j :: 0 <= j < |ps| && j != MoverIndex(ps).value ==> !ps[j].nowMoving
  {
    MoverCountZero(ps);
    MoverCountOne(ps, MoverIndex(ps).value);
  }

  /** Appending a player who is not moving leaves the count alone. */
  lemma MoverCountAppend(ps: seq<Player>, p: Player)
    requires !p.nowMoving
    ensures MoverCount(ps + [p]) == MoverCount(ps)
  {
    assert (ps + [p])[..|ps|] == ps;
  }

  /** The count only reads the moving flags. */
  lemma {:induction false} MoverCountSameFlags(ps: seq<Player>, qs: seq<Player>)
    requires |ps| == |qs| && forall j :: 0 <= j < |ps| ==> ps[j].nowMoving == qs[j].nowMoving
    ensures MoverCount(ps) == MoverCount(qs)
    decreases |ps|
  {
    if |ps| > 0 {
      MoverCountSameFlags(ps[..|ps| - 1], qs[..|qs| - 1]);
    }
  }

  // ------------------------------------------------------------ invariants

  /** The structural invariant of a room. */
  ghost predicate Valid(room: Room)
  {
    && PawnsWellFormed(room.pawns)
    && ScoresNonNegative(room.pawns)
    && |room.players| <= 4
    && (forall i :: 0 <= i < |room.players| ==> room.players[i].color == Some(COLORS[i]))
    && (room.full <==> |room.players| == 4)
    && (room.rolledNumber.Some? ==> 0 <= room.rolledNumber.value <= 6)
    && DistinctKeys(room.playerScores) && NonNegValues(room.playerScores)
    && DistinctKeys(room.playerCaptures) && NonNegValues(room.playerCaptures)
  }

  /** Whose turn it is: exactly one mover while a game is under way, none otherwise. */
  ghost predicate TurnInvariant(room: Room)
  {
    && (room.winner.Some? ==> room.started)
    && (room.gameEndTime.Some? ==> room.started)
    && (room.rolledNumber.Some? ==> room.started && room.winner.None?)
    && MoverCount(room.players) == (if room.started && room.winner.None? then 1 else 0)
  }

  /** A new room satisfies both invariants. */
  lemma NewRoomInvariants(id: nat)
    ensures Valid(NewRoom(id)) && TurnInvariant(NewRoom(id))
  {
  }

  /** Joining keeps both invariants: the newcomer takes the next colour and does not move. */
  lemma AddPlayerPreserves(room: Room, name: string, sessionId: nat, id: nat)
    requires Valid(room) && TurnInvariant(room)
    ensures Valid(AddPlayer(room, name, sessionId, id).0) && TurnInvariant(AddPlayer(room, name, sessionId, id).0)
  {
    if |room.players| < 4 {
      var p := Player(id, sessionId, name, Some(COLORS[|room.players|]), false, false);
      MoverCountAppend(room.players, p);
    }
  }

  /**
    startGame on a room that has not started: both invariants hold after,
    and player 0 is the one and only mover.
   */
  lemma StartGameEstablishesTurn(room: Room, clock: Clock)
    requires Valid(room) && TurnInvariant(room) && !room.started && |room.players| > 0
    ensures var r := StartGame(room, clock);
            Valid(r) && TurnInvariant(r) && MoverIndex(r.players) == Some(0) && MoverCount(r.players) == 1
  {
    StartGameValid(room, clock);
    StartGameTurn(room, clock);
  }

  lemma StartGameTurn(room: Room, clock: Clock)
    requires TurnInvariant(room) && !room.started && |room.players| > 0
    ensures var r := StartGame(room, clock);
            TurnInvariant(r) && MoverIndex(r.players) == Some(0) && MoverCount(r.players) == 1
  {
    var r := StartGame(room, clock);
    MoverCountZero(room.players);
    assert forall j :: 1 <= j < |r.players| ==> !r.players[j].nowMoving;
    MoverCountOne(r.players, 0);
    assert r.winner == room.winner && r.rolledNumber == room.rolledNumber && r.started;
  }

  lemma StartGameValid(room: Room, clock: Clock)
    requires Valid(room) && |room.players| > 0
    ensures Valid(StartGame(room, clock))
  {
    StartGameTables(room, clock);
    StartGameShape(room, clock);
  }

  /** startGame keeps the pawns, the roll, the full flag and every player's colour. */
  lemma StartGameShape(room: Room, clock: Clock)
    requires |room.players| > 0
    ensures var r := StartGame(room, clock);
            && r.pawns == room.pawns && r.rolledNumber == room.rolledNumber && r.full == room.full
            && |r.players| == |room.players|
            && forall i :: 0 <= i < |r.players| ==> r.players[i].color == room.players[i].color
  {
  }

  lemma StartGameTables(room: Room, clock: Clock)
    requires Valid(room) && |room.players| > 0
    ensures var r := StartGame(room, clock);
            DistinctKeys(r.playerScores) && NonNegValues(r.playerScores) &&
            DistinctKeys(r.playerCaptures) && NonNegValues(r.playerCaptures)
  {
    var r := StartGame(room, clock);
    assert r.playerScores == AllPlayerScores(room.pawns, r.players);
    assert r.playerCaptures == ZeroTable(room.players);
  }

  /** endGame in a started game: both invariants hold after, and nobody moves. */
  lemma EndGamePreserves(room: Room, winner: Color)
    requires Valid(room) && TurnInvariant(room) && room.started
    ensures Valid(EndGame(room, winner)) && TurnInvariant(EndGame(room, winner))
    ensures MoverCount(EndGame(room, winner).players) == 0
  {
    MoverCountZero(EndGame(room, winner).players);
  }

  /**
    changeMovingPlayer in a game under way passes the turn from the mover at
    index k to the player at (k + 1) mod n, who is then the only mover; the
    roll is cleared.
   */
  lemma ChangeMovingPlayerRotates(room: Room, clock: Clock)
    requires room.winner.None? && MoverCount(room.players) == 1
    ensures MoverIndex(room.players).Some?
    ensures var r := ChangeMovingPlayer(room, clock);
            var k := MoverIndex(room.players).value;
            && MoverIndex(r.players) == Some((k + 1) % |room.players|)
            && MoverCount(r.players) == 1
            && r.rolledNumber.None?
  {
    PassTurnRotates(room.players);
  }

  /** With one mover, passing the turn moves the only flag to the next seat. */
  lemma PassTurnRotates(ps: seq<Player>)
    requires MoverCount(ps) == 1
    ensures MoverIndex(ps).Some?
    ensures var k := MoverIndex(ps).value;
            MoverIndex(PassTurn(ps)) == Some((k + 1) % |ps|) && MoverCount(PassTurn(ps)) == 1
  {
    SoleMover(ps);
    var k := MoverIndex(ps).value;
    var cleared := ps[k := ps[k].(nowMoving := false)];
    var next := NextSeat(k, |ps|);
    var qs := cleared[next := cleared[next].(nowMoving := true)];
    assert PassTurn(ps) == qs;
    FlagMoved(ps, k, next);
    MoverCountOne(qs, next);
  }

  /** Clearing the only flag at k and setting the one at next leaves next the only mover. */
  lemma FlagMoved(ps: seq<Player>, k: nat, next: nat)
    requires k < |ps| && next < |ps|
    requires forall j :: 0 <= j < |ps| && j != k ==> !ps[j].nowMoving
    ensures var cleared := ps[k := ps[k].(nowMoving := false)];
            var qs := cleared[next := cleared[next].(nowMoving := true)];
            && qs[next].nowMoving
            && (forall j :: 0 <= j < |qs| && j != next ==> !qs[j].nowMoving)
            && MoverIndex(qs) == Some(next)
  {
    var cleared := ps[k := ps[k].(nowMoving := false)];
    var qs := cleared[next := cleared[next].(nowMoving := true)];
    forall j | 0 <= j < |qs| && j != next ensures !qs[j].nowMoving {
      assert qs[j] == cleared[j];
    }
    assert qs[next].nowMoving;
    var m := MoverIndex(qs);
    assert m.Some? && qs[m.value].nowMoving;
  }

  /** changeMovingPlayer with nobody moving hands the turn to player 0. */
  lemma ChangeMovingPlayerFirst(room: Room, clock: Clock)
    requires room.winner.None? && MoverCount(room.players) == 0 && |room.players| > 0
    ensures var r := ChangeMovingPlayer(room, clock);
            MoverIndex(r.players) == Some(0) && MoverCount(r.players) == 1 && r.rolledNumber.None?
  {
    MoverCountZero(room.players);
    var r := ChangeMovingPlayer(room, clock);
    MoverCountOne(r.players, 0);
  }

  /** changeMovingPlayer in a game under way keeps both invariants. */
  lemma ChangeMovingPlayerPreserves(room: Room, clock: Clock)
    requires Valid(room) && TurnInvariant(room) && room.started
    ensures Valid(ChangeMovingPlayer(room, clock)) && TurnInvariant(ChangeMovingPlayer(room, clock))
  {
    if room.winner.None? {
      ChangeMovingPlayerRotates(room, clock);
    }
  }

  /**
    movePawn keeps both invariants: pawns keep their colour and base, scores
    stay non-negative because the roll is, and only pawns and the two
    tables change.
   */
  lemma MovePawnPreserves(room: Room, k: nat, geo: Geometry, draw: Draw)
    requires Valid(room) && TurnInvariant(room) && k < |room.pawns| && room.rolledNumber.Some?
    ensures var r := MovePawn(room, k, geo, draw);
            Valid(r) && TurnInvariant(r) && r.players == room.players
  {
    var a := Advance(room, k, geo);
    assert ScoresNonNegative(a.pawns) by {
      forall j | 0 <= j < |a.pawns| ensures a.pawns[j].score >= 0 {
        if j != k {
          assert a.pawns[j] == room.pawns[j];
        }
      }
    }
    assert PawnsWellFormed(a.pawns);
    var r := MovePawn(room, k, geo, draw);
    assert PawnsWellFormed(r.pawns);
  }

  // -------------------------------------------------------------- handlers

  /**
    A saved move keeps both invariants and leaves no roll pending. The
    winner check comes before the turn change: when the move brings all
    four pawns of a colour home the game ends with that colour and nobody
    moves; otherwise the turn passes to the next player in join order.
   */
  lemma HandleMovePawnPreserves(session: Session, fetched: Option<Room>, pawnId: Option<int>,
                                geo: Geometry, draw: Draw, clock: Clock)
    requires fetched.Some? ==> Valid(fetched.value) && TurnInvariant(fetched.value)
    ensures var r := GH.HandleMovePawn(session, fetched, pawnId, geo, draw, clock);
            r.MoveSaved? ==>
              && fetched.Some? && pawnId.Some? && 0 <= pawnId.value < |fetched.value.pawns|
              && fetched.value.rolledNumber.Some? && MoverIndex(fetched.value.players).Some?
              && var room := fetched.value;
                 var moved := MovePawn(room, pawnId.value, geo, draw);
                 && Valid(r.room) && TurnInvariant(r.room) && r.room.rolledNumber.None?
                 && (GetWinner(moved).Some? ==> r.room.winner == GetWinner(moved) && MoverCount(r.room.players) == 0)
                 && (GetWinner(moved).None? ==>
                       r.room.winner.None? &&
                       MoverIndex(r.room.players) == Some((MoverIndex(room.players).value + 1) % |room.players|))
  {
    var r := GH.HandleMovePawn(session, fetched, pawnId, geo, draw, clock);
    if r.MoveSaved? {
      assert GH.MoveCheck(session, fetched, pawnId).None?;
      var room := fetched.value;
      var k := pawnId.value;
      SoleMover(room.players);
      MovePawnPreserves(room, k, geo, draw);
      var moved := MovePawn(room, k, geo, draw);
      assert r.room == GH.MoveOutcomeOf(room, k, geo, draw, clock);
      if GetWinner(moved).Some? {
        EndGamePreserves(moved, GetWinner(moved).value);
      } else {
        ChangeMovingPlayerRotates(moved, clock);
        ChangeMovingPlayerPreserves(moved, clock);
      }
    }
  }

  /** A successful roll keeps both invariants and the mover. */
  lemma HandleRollDicePreserves(session: Session, fetched: Option<Room>, dieDraw: Draw,
                                playerCanMove: (Player, Room, int) -> bool)
    requires fetched.Some? ==> Valid(fetched.value) && TurnInvariant(fetched.value)
    ensures var r := GH.HandleRollDice(session, fetched, dieDraw, playerCanMove);
            r.Rolled? ==>
              Valid(r.room) && TurnInvariant(r.room) && MoverIndex(r.room.players) == MoverIndex(fetched.value.players)
  {
    var r := GH.HandleRollDice(session, fetched, dieDraw, playerCanMove);
    if r.Rolled? {
      assert GH.RollCheck(session, fetched).None?;
    }
  }

  /**
    The deferred turn change keeps both invariants: a room still holding
    the roll is a game under way, so the turn passes to the next player.
   */
  lemma DeferredTurnChangePreserves(reread: Option<Room>, rolled: int, clock: Clock)
    requires reread.Some? ==> Valid(reread.value) && TurnInvariant(reread.value)
    ensures var r := GH.DeferredTurnChange(reread, rolled, clock);
            r.Some? ==>
              && MoverIndex(reread.value.players).Some?
              && Valid(r.value) && TurnInvariant(r.value) && r.value.rolledNumber.None?
              && MoverIndex(r.value.players) ==
                   Some((MoverIndex(reread.value.players).value + 1) % |reread.value.players|)
  {
    if GH.DeferredTurnChange(reread, rolled, clock).Some? {
      ChangeMovingPlayerRotates(reread.value, clock);
      ChangeMovingPlayerPreserves(reread.value, clock);
    }
  }

  /** Autoplay keeps both invariants and never leaves a roll pending. */
  lemma MakeRandomMovePreserves(fetched: Option<Room>, clock: Clock, geo: Geometry,
                                dieDraw: Draw, pawnDraw: Draw, strikerDraw: Draw)
    requires fetched.Some? ==> Valid(fetched.value) && TurnInvariant(fetched.value)
    ensures var r := MakeRandomMove(fetched, clock, geo, dieDraw, pawnDraw, strikerDraw);
            r.Saved? ==> Valid(r.room) && TurnInvariant(r.room) && r.room.rolledNumber.None?
  {
    var r := MakeRandomMove(fetched, clock, geo, dieDraw, pawnDraw, strikerDraw);
    if r.Saved? {
      var room := fetched.value;
      var scoreWinner := WinnerByScore(room.playerScores, room.playerCaptures);
      if IsGameTimeExpired(room, clock.now) && scoreWinner.Some? {
        EndGamePreserves(room, scoreWinner.value);
      } else {
        AutoplayRegularPreserves(room, clock, geo, dieDraw, pawnDraw, strikerDraw);
      }
    }
  }

  /** The roll of autoplay keeps both invariants of a game under way. */
  lemma AutoRollPreserves(room: Room, dieDraw: Draw)
    requires Valid(room) && TurnInvariant(room) && room.started && room.winner.None?
    ensures var r := AutoRoll(room, dieDraw);
            Valid(r) && TurnInvariant(r) && r.started && r.players == room.players
  {
  }

  /** The move of autoplay keeps both invariants of a game under way. */
  lemma AutoMovePreserves(room: Room, geo: Geometry, pawnDraw: Draw, strikerDraw: Draw)
    requires Valid(room) && TurnInvariant(room) && room.started
    requires MoverIndex(room.players).Some? && room.rolledNumber.Some?
    ensures var r := AutoMove(room, geo, pawnDraw, strikerDraw);
            Valid(r) && TurnInvariant(r) && r.started
  {
    var moved := AutoMove(room, geo, pawnDraw, strikerDraw);
    if |PawnsThatCanMove(room, geo)| > 0 {
      var k :| k in PawnsThatCanMove(room, geo) && moved == UpdatePlayerScores(MovePawn(room, k, geo, strikerDraw));
      RescoreAfterMove(room, k, geo, strikerDraw);
      MovePawnPreserves(room, k, geo, strikerDraw);
    }
  }

  /** The autoplay move touches pawns and scores only: seats, flags and the winner stay. */
  lemma AutoMoveFrame(room: Room, geo: Geometry, pawnDraw: Draw, strikerDraw: Draw)
    requires MoverIndex(room.players).Some? && room.rolledNumber.Some?
    ensures var r := AutoMove(room, geo, pawnDraw, strikerDraw);
            r.players == room.players && r.winner == room.winner && r.started == room.started
  {
  }

  /**
    The regular autoplay path: roll if needed, move, pass the turn, check
    for a winner. When the move brought all four pawns of a colour home,
    that colour is recorded as winner and nobody moves; otherwise there is
    no winner and the seat after the previous mover moves next.
   */
  lemma AutoplayRegularPreserves(room: Room, clock: Clock, geo: Geometry,
                                 dieDraw: Draw, pawnDraw: Draw, strikerDraw: Draw)
    requires Valid(room) && TurnInvariant(room) && RegularStep(room, clock)
    ensures var r := MakeRandomMove(Some(room), clock, geo, dieDraw, pawnDraw, strikerDraw);
            r.Saved? && Valid(r.room) && TurnInvariant(r.room) && r.room.rolledNumber.None?
    ensures var r := MakeRandomMove(Some(room), clock, geo, dieDraw, pawnDraw, strikerDraw);
            var moved := AutoMove(AutoRoll(room, dieDraw), geo, pawnDraw, strikerDraw);
            GetWinner(moved).Some? ==> r.room.winner == GetWinner(moved) && MoverIndex(r.room.players).None?
    ensures var r := MakeRandomMove(Some(room), clock, geo, dieDraw, pawnDraw, strikerDraw);
            var moved := AutoMove(AutoRoll(room, dieDraw), geo, pawnDraw, strikerDraw);
            GetWinner(moved).None? ==>
              && r.room.winner.None?
              && MoverIndex(r.room.players) == Some((MoverIndex(room.players).value + 1) % |room.players|)
  {
    MoverCountZero(room.players);
    AutoRollPreserves(room, dieDraw);
    var rolled := AutoRoll(room, dieDraw);
    AutoMovePreserves(rolled, geo, pawnDraw, strikerDraw);
    var moved := AutoMove(rolled, geo, pawnDraw, strikerDraw);
    ChangeMovingPlayerPreserves(moved, clock);
    var turned := ChangeMovingPlayer(moved, clock);
    MakeRandomMoveRegular(room, clock, geo, dieDraw, pawnDraw, strikerDraw);
    if GetWinner(turned).Some? {
      EndGamePreserves(turned, GetWinner(turned).value);
    }
    AutoplayRegularOutcome(room, clock, geo, dieDraw, pawnDraw, strikerDraw);
  }

  /**
    What the regular autoplay step saves: the winner found after the move
    with nobody moving, or no winner and the seat after the previous mover
    moving next.
   */
  lemma AutoplayRegularOutcome(room: Room, clock: Clock, geo: Geometry,
                               dieDraw: Draw, pawnDraw: Draw, strikerDraw: Draw)
    requires TurnInvariant(room) && RegularStep(room, clock)
    ensures var r := MakeRandomMove(Some(room), clock, geo, dieDraw, pawnDraw, strikerDraw);
            var moved := AutoMove(AutoRoll(room, dieDraw), geo, pawnDraw, strikerDraw);
            && r.Saved?
            && (GetWinner(moved).Some? ==> r.room.winner == GetWinner(moved) && MoverIndex(r.room.players).None?)
            && (GetWinner(moved).None? ==>
                  && r.room.winner.None?
                  && MoverIndex(r.room.players) == Some((MoverIndex(room.players).value + 1) % |room.players|))
  {
    var rolled := AutoRoll(room, dieDraw);
    var moved := AutoMove(rolled, geo, pawnDraw, strikerDraw);
    AutoMoveFrame(rolled, geo, pawnDraw, strikerDraw);
    assert moved.players == room.players && moved.winner.None?;
    var turned := ChangeMovingPlayer(moved, clock);
    TurnAfterAutoMove(room, moved, clock);
    GetWinnerReadsPawns(turned, moved);
    MakeRandomMoveRegular(room, clock, geo, dieDraw, pawnDraw, strikerDraw);
    if GetWinner(turned).Some? {
      EndGameNoMover(turned, GetWinner(turned).value);
    }
  }

  /** After endGame nobody moves. */
  lemma EndGameNoMover(room: Room, w: Color)
    ensures MoverIndex(EndGame(room, w).players).None?
  {
    var r := EndGame(room, w);
    assert forall j :: 0 <= j < |r.players| ==> !r.players[j].nowMoving;
  }

  /** Passing the turn on a room with the same seats as a room in mid-game. */
  lemma TurnAfterAutoMove(room: Room, moved: Room, clock: Clock)
    requires TurnInvariant(room) && room.winner.None? && MoverIndex(room.players).Some?
    requires moved.players == room.players && moved.winner.None?
    ensures var turned := ChangeMovingPlayer(moved, clock);
            && turned.pawns == moved.pawns
            && MoverIndex(turned.players) == Some((MoverIndex(room.players).value + 1) % |room.players|)
  {
    MoverCountZero(room.players);
    ChangeMovingPlayerRotates(moved, clock);
  }

  /** getWinner looks at the pawns only. */
  lemma GetWinnerReadsPawns(a: Room, b: Room)
    requires a.pawns == b.pawns
    ensures GetWinner(a) == GetWinner(b)
  {
  }

  /**
    Autoplay on an expired game ends it with the score winner of
    getWinnerByScore, the colour IsScoreWinner describes, without rolling
    or moving.
   */
  lemma MakeRandomMoveTimeExpiry(room: Room, clock: Clock, geo: Geometry,
                                 dieDraw: Draw, pawnDraw: Draw, strikerDraw: Draw)
    requires Valid(room) && room.winner.None? && IsGameTimeExpired(room, clock.now) && |room.playerScores| > 0
    ensures exists c :: IsScoreWinner(room.playerScores, room.playerCaptures, c) &&
              MakeRandomMove(Some(room), clock, geo, dieDraw, pawnDraw, strikerDraw) == Saved(EndGame(room, c))
    ensures var r := MakeRandomMove(Some(room), clock, geo, dieDraw, pawnDraw, strikerDraw);
            r.Saved? && r.room.pawns == room.pawns && r.room.rolledNumber.None?
  {
    var w := WinnerByScoreFound(room.playerScores, room.playerCaptures);
    assert MakeRandomMove(Some(room), clock, geo, dieDraw, pawnDraw, strikerDraw) == Saved(EndGame(room, w));
  }

  /** A first-try join into a room not yet started keeps both invariants. */
  lemma JoinFirstTryPreserves(room: Room, name: string, sessionId: nat, st: PH.Storage, clock: Clock)
    requires Valid(room) && TurnInvariant(room) && !room.started && |room.players| < 4
    ensures var r := PH.JoinFirstTry(room, name, sessionId, st, clock);
            Valid(r.room) && TurnInvariant(r.room)
  {
    var joined := AddPlayer(room, name, sessionId, st.newPlayerId).0;
    AddPlayerPreserves(room, name, sessionId, st.newPlayerId);
    var checked := IsFull(joined);
    assert checked.0 == joined;
    if checked.1 {
      StartGameEstablishesTurn(joined, clock);
    }
    assert PH.JoinFirstTry(room, name, sessionId, st, clock).room == PH.StartIfFull(joined, clock);
  }

  /** The fallback join keeps both invariants of the room it joins. */
  lemma JoinElsewherePreserves(name: string, sessionId: nat, st: PH.Storage)
    requires forall i :: 0 <= i < |st.relisting| ==> Valid(st.relisting[i]) && TurnInvariant(st.relisting[i])
    ensures var r := PH.JoinElsewhere(name, sessionId, st);
            Valid(r.room) && TurnInvariant(r.room)
  {
    NewRoomInvariants(st.fallbackRoomId);
    AddPlayerPreserves(NewRoom(st.fallbackRoomId), name, sessionId, st.newPlayerId);
    match PH.FirstEligible(st.relisting)
    case Some(i) =>
      AddPlayerPreserves(st.relisting[i], name, sessionId, st.newPlayerId);
    case None =>
  }

  /** Every room a login can read satisfies both invariants. */
  ghost predicate StorageInvariants(st: PH.Storage)
  {
    && (st.byId.Some? ==> Valid(st.byId.value) && TurnInvariant(st.byId.value))
    && (forall i :: 0 <= i < |st.listing| ==> Valid(st.listing[i]) && TurnInvariant(st.listing[i]))
    && (forall i :: 0 <= i < |st.relisting| ==> Valid(st.relisting[i]) && TurnInvariant(st.relisting[i]))
  }

  /** A successful login saves a room that satisfies both invariants. */
  lemma HandleLoginPreserves(data: Option<PH.LoginData>, sessionId: nat, st: PH.Storage, clock: Clock)
    requires StorageInvariants(st)
    ensures var r := PH.HandleLogin(data, sessionId, st, clock);
            r.Joined? ==> Valid(r.room) && TurnInvariant(r.room)
  {
    var r := PH.HandleLogin(data, sessionId, st, clock);
    if r.Joined? {
      var name := data.value.name.s;
      var room: Room;
      if data.value.roomId.Some? {
        room := IsFull(st.byId.value).0;
      } else {
        room := match PH.FirstEligible(st.listing)
                case Some(i) => st.listing[i]
                case None => NewRoom(st.newRoomId);
        NewRoomInvariants(st.newRoomId);
      }
      assert r == PH.AddPlayerToExistingRoom(room, name, sessionId, st, clock);
      assert Valid(room) && TurnInvariant(room) && !room.started;
      if |room.players| < 4 {
        JoinFirstTryPreserves(room, name, sessionId, st, clock);
      } else {
        JoinElsewherePreserves(name, sessionId, st);
      }
    }
  }

  /** A ready toggle keeps the structural invariant, started game or not. */
  lemma HandleReadyValid(session: Session, fetched: Option<Room>, clock: Clock)
    requires fetched.Some? ==> Valid(fetched.value)
    ensures var r := PH.HandleReady(session, fetched, clock);
            r.ReadySaved? ==> Valid(r.room)
  {
    var r := PH.HandleReady(session, fetched, clock);
    if r.ReadySaved? {
      var room := fetched.value;
      var k := PlayerIndex(room.players, session.playerId.value).value;
      var toggled := PH.ToggleReady(room, k);
      assert Valid(toggled);
      if CanStartGame(toggled) {
        StartGameValid(toggled, clock);
      }
    }
  }

  /** In the lobby, a ready toggle keeps the turn invariant: a start makes player 0 the only mover. */
  lemma HandleReadyInLobby(session: Session, fetched: Option<Room>, clock: Clock)
    requires fetched.Some? ==> TurnInvariant(fetched.value) && !fetched.value.started
    ensures var r := PH.HandleReady(session, fetched, clock);
            r.ReadySaved? ==> TurnInvariant(r.room)
  {
    var r := PH.HandleReady(session, fetched, clock);
    if r.ReadySaved? {
      var room := fetched.value;
      var k := PlayerIndex(room.players, session.playerId.value).value;
      var toggled := PH.ToggleReady(room, k);
      MoverCountSameFlags(room.players, toggled.players);
      if CanStartGame(toggled) {
        StartGameTurn(toggled, clock);
      }
    }
  }

  /**
    With the start guarded, a ready toggle keeps both invariants in every
    room, in the lobby and during a game alike.
   */
  lemma HandleReadyLobbyOnlyPreserves(session: Session, fetched: Option<Room>, clock: Clock)
    requires fetched.Some? ==> Valid(fetched.value) && TurnInvariant(fetched.value)
    ensures var r := PH.HandleReadyLobbyOnly(session, fetched, clock);
            r.ReadySaved? ==> Valid(r.room) && TurnInvariant(r.room)
  {
    var r := PH.HandleReadyLobbyOnly(session, fetched, clock);
    if r.ReadySaved? {
      var room := fetched.value;
      if room.started {
        MoverCountSameFlags(room.players, r.room.players);
        assert Valid(r.room);
      } else {
        HandleReadyValid(session, fetched, clock);
        HandleReadyInLobby(session, fetched, clock);
      }
    }
  }

  /** The guarded handler leaves the mid-game room of the counterexample with its single mover. */
  lemma HandleReadyLobbyOnlyOneMover(id: nat, clock: Clock)
    ensures var r := PH.HandleReadyLobbyOnly(Session(Some(0), Some(2), Some(Green)), Some(MidGameRoom(id)), clock);
            r.ReadySaved? && MoverCount(r.room.players) == 1
  {
    MidGameRoomInvariants(id);
    HandleReadyLobbyOnlyPreserves(Session(Some(0), Some(2), Some(Green)), Some(MidGameRoom(id)), clock);
  }

  lemma MoverCountThree(a: Player, b: Player, c: Player)
    ensures MoverCount([a, b, c]) ==
              (if a.nowMoving then 1 else 0) + (if b.nowMoving then 1 else 0) + (if c.nowMoving then 1 else 0)
  {
    assert MoverCount([a]) == (if a.nowMoving then 1 else 0) by { assert [a][..0] == []; }
    assert MoverCount([a, b]) == MoverCount([a]) + (if b.nowMoving then 1 else 0) by { assert [a, b][..1] == [a]; }
    assert [a, b, c][..2] == [a, b];
  }

  lemma CountReadyThree(a: Player, b: Player, c: Player)
    ensures CountReady([a, b, c]) ==
              (if a.ready then 1 else 0) + (if b.ready then 1 else 0) + (if c.ready then 1 else 0)
  {
    assert CountReady([a]) == (if a.ready then 1 else 0) by { assert [a][..0] == []; }
    assert CountReady([a, b]) == CountReady([a]) + (if b.ready then 1 else 0) by { assert [a, b][..1] == [a]; }
    assert [a, b, c][..2] == [a, b];
  }

  /** A three-player game under way in which player 1 is moving. */
  function MidGameRoom(id: nat): (r: Room)
    ensures |r.players| == 3 && r.started && r.players[1].nowMoving
  {
    NewRoom(id).(started := true, nextMoveTime := Some(10), gameEndTime := Some(100),
                players := [Player(0, 0, "a", Some(Red), true, false),
                            Player(1, 1, "b", Some(Blue), true, true),
                            Player(2, 2, "c", Some(Green), true, false)])
  }

  lemma MidGameRoomInvariants(id: nat)
    ensures Valid(MidGameRoom(id)) && TurnInvariant(MidGameRoom(id))
  {
    NewRoomInvariants(id);
    var ps := MidGameRoom(id).players;
    assert ps == [ps[0], ps[1], ps[2]];
    MoverCountThree(ps[0], ps[1], ps[2]);
  }

  /**
    handleReady has no started guard: in a three-player game where player 1
    is moving, player 2 toggling ready leaves two players ready, startGame
    runs again and player 0 moves too, so two players are moving.
   */
  lemma HandleReadyTwoMovers(id: nat, clock: Clock)
    ensures var room := MidGameRoom(id);
            var r := PH.HandleReady(Session(Some(0), Some(2), Some(Green)), Some(room), clock);
            && Valid(room) && TurnInvariant(room)
            && r.ReadySaved? && MoverCount(r.room.players) == 2
  {
    MidGameRoomInvariants(id);
    MidGameReadyRestarts(id, clock);
    MidGameRestartMovers(id, clock);
  }

  /** Player 2 toggling ready in the mid-game room leaves two players ready, so startGame runs. */
  lemma MidGameReadyRestarts(id: nat, clock: Clock)
    ensures PH.HandleReady(Session(Some(0), Some(2), Some(Green)), Some(MidGameRoom(id)), clock) ==
            PH.ReadySaved(StartGame(PH.ToggleReady(MidGameRoom(id), 2), clock))
  {
    var room := MidGameRoom(id);
    var ps := room.players;
    assert PlayerIndex(ps, 2) == Some(2);
    MidGameToggleReady(id);
    assert CanStartGame(PH.ToggleReady(room, 2));
  }

  /** After player 2's toggle, players 0 and 1 are still ready. */
  lemma MidGameToggleReady(id: nat)
    ensures CountReady(PH.ToggleReady(MidGameRoom(id), 2).players) == 2
  {
    var ps := MidGameRoom(id).players;
    var toggled := PH.ToggleReady(MidGameRoom(id), 2);
    assert toggled.players == [ps[0], ps[1], ps[2].(ready := false)];
    CountReadyThree(ps[0], ps[1], ps[2].(ready := false));
  }

  /** startGame on three players sets player 0 moving and keeps the others' flags. */
  lemma StartGameMoversThree(room: Room, clock: Clock)
    requires |room.players| == 3
    ensures MoverCount(StartGame(room, clock).players) ==
              1 + (if room.players[1].nowMoving then 1 else 0) + (if room.players[2].nowMoving then 1 else 0)
  {
    var ps := StartGame(room, clock).players;
    assert ps == [ps[0], ps[1], ps[2]];
    MoverCountThree(ps[0], ps[1], ps[2]);
  }

  /** The restart makes player 0 move while player 1 still moves. */
  lemma MidGameRestartMovers(id: nat, clock: Clock)
    ensures MoverCount(StartGame(PH.ToggleReady(MidGameRoom(id), 2), clock).players) == 2
  {
    var toggled := PH.ToggleReady(MidGameRoom(id), 2);
    assert toggled.players[1].nowMoving && !toggled.players[2].nowMoving;
    StartGameMoversThree(toggled, clock);
  }
}
