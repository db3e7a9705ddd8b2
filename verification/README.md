# Ludo room engine — a Dafny model

This project models the rule engine of a four-player online Ludo server. The
engine decides what a game room looks like after each player action. The model
covers:

- **the room aggregate**: sixteen default pawns, seating players in colour
  order, the lobby-to-game transition, turn rotation, moving a pawn with
  scoring and captures, the all-pawns-home win, and the highest-score win once
  time runs out;
- **score arithmetic**: per-pawn and per-colour scores, and the score transfer
  of a capture;
- **the in-game handlers**: their fixed order of rejection checks for moving a
  pawn and rolling the die, the "is this move yours" test, and the autoplay
  step that plays for a player whose move time ran out;
- **the lobby handlers**: login (name validation, room choice, joining, and
  the automatic start of a full room) and the ready toggle.

Everything is written as pure functions over immutable records.

- **Rooms.** A room is a `Room` value. A room's `playerScores` and
  `playerCaptures` objects are insertion-ordered colour tables (`Table`),
  because the score-win tie-break depends on key order.
- **Pawns and players.** A pawn is known by its index among the sixteen pawns.
  A player is known by a numeric id.
- **Handlers.** Each handler is a function from the session, the room read
  from storage (`Option<Room>`, where `None` means not found) and its input to
  an outcome. The outcome is either the first rejection the handler emits or
  the room it saves.
- **Parameters.**
  - Randomness: each `Math.random()` value is a `Draw`, an exact fraction
    in [0, 1).
  - Time: the wall clock is a `Clock`.
  - Pawn geometry: the pawn geometry the engine calls into is a `Geometry`
    of two functions.
  - Roll handler: whether a player can move with a roll is a function
    parameter of the roll handler.
  - Login: what the login flow reads from storage is a `Storage` value.

Two room invariants run through the proofs:

- `Invariants.Valid` is the structural invariant:
  - sixteen pawns with fixed colours and bases;
  - non-negative scores;
  - at most four players, coloured in palette order;
  - `full` exactly at four players;
  - a roll in 0..6;
  - score tables with distinct keys and non-negative values.
- `Invariants.TurnInvariant` is the turn invariant:
  - a winner, an end time or a pending roll only in a started game;
  - exactly one player flagged as moving while a game is under way without a
    winner, and none otherwise.

Every handler and room operation is proved to keep both invariants, with one
exception: the ready toggle on a game that has already started (see Findings).

The stored die has three states in the running system: never written (a
room fresh from startGame), null (written by a turn change or the end of the
game) and a value. The handlers' checks tell the first two apart. The main
model reads both as "no roll", which is the evidently intended behaviour;
module `RollState` models the three states and the checks as written, and
shows how they block the first roll of every game (see Findings).

Two consequences of the join logic are worth knowing:

1. **The fallback path cannot be reached from login.** The room that login
   chooses always has a free seat, so a successful login always seats the
   newcomer there (`PlayerHandler.LoginJoinsChosenRoom`). The seat check and
   addPlayer run on the same in-memory room with nothing awaited in between,
   so a concurrent write to storage cannot change the outcome either. Login
   is the only caller of `addPlayerToExistingRoom`, so its fallback branch
   is dead code; it is modelled for completeness.
2. **The fallback room is never started.** When the fallback path seats the
   newcomer in another room, that room is saved without the automatic start.

## Model

| member | source | states |
|---|---|---|
| RoomModel.DefaultPawns | backend/models/room.js:26-39 | the first n default pawns: pawn i has base and position i, score 0 and colour COLORS[i div 4] |
| RoomModel.NewRoom | backend/models/room.js:9-44 | a new room has no players, is neither started nor full, and has exactly the sixteen default pawns |
| WinnerProofs.FourPawnsPerColor | backend/models/room.js:26-39 | in a well-formed pawn array every colour owns exactly four pawns |
| RoomModel.MoverIndex | backend/models/room.js:365-367 | the index of the first player flagged as moving; nothing exactly when no player is flagged |
| RoomModel.CurrentMover | backend/models/room.js:365-367 | a player is returned exactly when some player is flagged as moving, and it is the first flagged player: no seat before it is flagged |
| RoomModel.PlayerIndex | backend/models/room.js:328-330 | the index of the first player with the given id; nothing exactly when no player has it |
| RoomModel.UpdatePlayerScores | backend/models/room.js:107-116 | only playerScores changes; its keys are exactly the colours players hold, each mapped to that colour's pawn-score sum |
| RoomModel.UpdatePawnScore | backend/models/room.js:124-141 | an unknown pawn leaves the room unchanged; otherwise only that pawn's score grows by the amount, and the scores are recomputed |
| RoomModel.CaptureStep | backend/models/room.js:70-85 | one capture keeps every pawn's colour and base, and keeps scores non-negative |
| CaptureProofs.CaptureStepAt | backend/models/room.js:76-82 | in one capture the victim goes to its base with score 0, the striker adds the victim's score, and every other pawn is unchanged |
| RoomModel.ProcessVictims | backend/models/room.js:70-85 | processing the victims keeps colours and bases, and on non-negative scores yields a non-negative captured total |
| CaptureProofs.ProcessVictimsEffect | backend/models/room.js:70-85 | after the victims are processed, each victim sits at its base with score 0, the striker holds its old score plus the victims' scores, the total captured is that sum, and every other pawn is untouched |
| CaptureProofs.ProcessVictimsConserves | backend/models/room.js:70-85 | processing the victims leaves the total score of all pawns unchanged |
| RoomModel.AddCaptures | backend/models/room.js:88-99 | a positive captured total is added to the attacker's tally, with a missing entry read as 0, and no other colour changes; a total of 0 leaves the tally unchanged |
| RoomModel.BeatPawns | backend/models/room.js:46-105 | captures change only pawns, tallies and scores; pawn colours and bases are kept, and scores are recomputed from the new pawns |
| CaptureProofs.StrikerOf | backend/models/room.js:63-67 | the striker is the drawn pawn among the attacker's pawns, and it has the attacker's colour |
| CaptureProofs.BeatPawnsConserves | backend/models/room.js:46-105 | resolving a landing never changes the total score of all pawns |
| CaptureProofs.BeatPawnsCapture | backend/models/room.js:46-105 | the outcome of a capture, spelled out below this table |
| CaptureProofs.BeatPawnsKeepsAttackerSquare | backend/models/room.js:57 | a pawn of the attacker's colour never changes square during captures |
| CaptureProofs.BeatPawnsAgreesWithHandleCapture | backend/models/room.js:70-85 | with a single victim, the striker's and victim's new scores are the ones handleCapture computes |
| RoomModel.Advance | backend/models/room.js:169-187 | the moved pawn lands where the geometry says, and earns the die value only if its square changed; no other pawn changes |
| CaptureProofs.MovePawnScoring | backend/models/room.js:169-191 | after a move the pawn stands on its target, the total score grows by the die value exactly when the square changed (captures conserve it), and scores are recomputed |
| RoomModel.PawnsThatCanMove | backend/models/room.js:193-197 | a pawn is listed exactly when it has the mover's colour and the geometry lets it move by the roll |
| RoomModel.NextSeat | backend/models/room.js:155 | the next seat is (k + 1) mod n, that is k + 1 or 0 after the last seat |
| RoomModel.PassTurn | backend/models/room.js:146-159 | passing the turn keeps the players and changes only moving flags; with a first mover at seat k, seat (k + 1) mod n moves next, seat k stops moving and every other seat is untouched; with nobody moving, seat 0 moves and the rest are untouched |
| RoomModel.ChangeMovingPlayer | backend/models/room.js:143-167 | with a winner the room is unchanged; otherwise only the moving flags change, the roll is cleared and the deadline is set to now plus the move time |
| Invariants.ChangeMovingPlayerRotates | backend/models/room.js:143-167 | with one mover at index k and no winner, afterwards exactly one player moves, it is player (k + 1) mod n, and no roll is pending |
| Invariants.ChangeMovingPlayerPreserves | backend/models/room.js:143-167 | in a started game, changing the moving player keeps both invariants, with or without a winner |
| Invariants.ChangeMovingPlayerFirst | backend/models/room.js:146-151 | with nobody moving, player 0 becomes the only mover and the roll is cleared |
| RoomModel.CanStartGame | backend/models/room.js:204-206 | canStartGame holds exactly when two different players are ready |
| RoomModel.ZeroTable | backend/models/room.js:216-226 | one zero entry, without duplicates, for each colour held by a player |
| RoomModel.StartGame | backend/models/room.js:208-237 | the start of a game, spelled out below this table |
| Invariants.StartGameEstablishesTurn | backend/models/room.js:208-237 | starting a lobby room yields a valid room in which player 0 is the only mover |
| Invariants.StartGameValid | backend/models/room.js:208-237 | starting a game keeps the structural invariant |
| RoomModel.EndGame | backend/models/room.js:239-261 | the winner is recorded, the roll and the deadline are cleared, nobody moves, and nothing else changes |
| Invariants.EndGamePreserves | backend/models/room.js:239-261 | ending a started game keeps both invariants and leaves no mover |
| RoomModel.GetWinner | backend/models/room.js:263-278 | a colour is returned only if four of its pawns are home and no earlier colour has four home; nothing exactly when no colour has four home |
| WinnerProofs.CountHomeExact | backend/models/room.js:265-276 | four pawns of a colour on its home square means every pawn of that colour is home, and conversely |
| WinnerProofs.GetWinnerExact | backend/models/room.js:263-278 | getWinner returns c exactly when all of c's pawns are home and no colour earlier in red, blue, green, yellow order has all its pawns home; it returns nothing exactly when no colour is all home |
| WinnerProofs.ScanScoresSpec | backend/models/room.js:286-294 | the score pass ends with the maximum score, the colours holding it in table order, and the first of them as provisional winner |
| WinnerProofs.ScanCapturesSpec | backend/models/room.js:297-307 | the tie-break pass names a tied colour with the most captures, strictly ahead of every earlier tied colour |
| RoomModel.WinnerByScore | backend/models/room.js:280-313 | for any scores, an empty table has no winner and a winner is always a colour of the score table |
| WinnerProofs.WinnerByScoreExact | backend/models/room.js:280-313 | the score win, spelled out below this table |
| WinnerProofs.WinnerByScoreFound | backend/models/room.js:280-313 | a non-empty table always yields a winner, and it is the one the score rule describes |
| WinnerProofs.ScoreWinnerUnique | backend/models/room.js:280-313 | the score rule describes at most one colour |
| WinnerProofs.WinnerByScoreExample | backend/models/room.js:280-313 | scores red 10, blue 10, green 7 with captures red 3, blue 5 give blue |
| RoomModel.IsGameTimeExpired | backend/models/room.js:315-317 | expired exactly when a set, non-zero end time lies strictly before now |
| RoomModel.IsFull | backend/models/room.js:319-326 | reports at least four players and refreshes the full flag to match, changing nothing else |
| RoomModel.AddPlayer | backend/models/room.js:332-351 | a player joining a room, spelled out below this table |
| Invariants.AddPlayerPreserves | backend/models/room.js:332-351 | a join keeps both invariants |
| Invariants.NewRoomInvariants | backend/models/room.js:9-44 | a new room satisfies both invariants |
| RoomModel.MovePawn | backend/models/room.js:169-191 | a move keeps the sixteen pawns and changes nothing but pawns, scores and captures; what it does to them is stated by CaptureProofs.MovePawnScoring |
| Invariants.MovePawnPreserves | backend/models/room.js:169-191 | a move keeps both invariants and leaves the players as they were |
| Invariants.HandleMovePawnPreserves | backend/handlers/gameHandler.js:43-67 | the effect of a saved move, spelled out below this table |
| ScoreUtils.CalculatePawnScore | backend/utils/scoreUtils.js:11-14 | the new score exceeds the old one by exactly the die value |
| ScoreUtils.HandleCapture | backend/utils/scoreUtils.js:22-30 | the victim's new score is 0, and the pair's total score is conserved |
| ScoreUtils.PlayerScore | backend/utils/scoreUtils.js:38-46 | the colour's pawn-score sum is 0 when the colour has no pawns, and non-negative on non-negative scores |
| ScoreUtils.PlayerScoresPartitionTotal | backend/utils/scoreUtils.js:38-46 | the four colour sums add up to the total score of all pawns |
| ScoreUtils.AllPlayerScores | backend/utils/scoreUtils.js:54-75 | the keys, without duplicates, are exactly the colours players hold, and each maps to calculatePlayerScore of that colour |
| ScoreUtils.AllPlayerScoresJoinOrder | backend/utils/scoreUtils.js:54-75 | for players coloured in join order, the table lists the palette colours in join order, one entry per player |
| ScoreUtils.AllPlayerScoresReadsOnlyScores | backend/utils/scoreUtils.js:54-75 | two pawn arrays that agree on colours and scores give the same table, so recomputing without a score change is idempotent |
| ScoreUtils.CountCaptures | backend/utils/scoreUtils.js:83-87 | the placeholder reports no captures for any colour |
| ScoreTable.Put | backend/models/room.js:89-92 | writing t[c] = v: c now reads v, other keys read as before, a new key is appended, an existing key is updated in place |
| ScoreTable.GetOrZero | backend/models/room.js:302 | a missing key reads as 0, and a present key reads its value |
| Chance.PickIndex | backend/models/room.js:66 | the picked index k is the floor of n times the draw (k·den <= n·num < (k+1)·den), so it lies in 0..n-1 for a non-empty list |
| Chance.PickIndexReachesAll | backend/models/room.js:66 | every index of a non-empty list is picked by some draw |
| HandlersFunctions.RollDice | backend/handlers/handlersFunctions.js:3-6 | the roll is the ceiling of six times the draw: in 0..6, and 0 exactly for a zero draw |
| HandlersFunctions.RollDiceReachesAll | backend/handlers/handlersFunctions.js:3-6 | every face 1..6 comes up for some draw |
| HandlersFunctions.IsMoveValid | backend/handlers/handlersFunctions.js:51-59 | true exactly when the session's colour is the pawn's and the session's player is the current mover; a thrown error exactly when the colours match but nobody moves |
| HandlersFunctions.AutoRoll | backend/handlers/handlersFunctions.js:24-27 | the die is thrown only when no roll is pending, and only the roll changes |
| HandlersFunctions.AutoMove | backend/handlers/handlersFunctions.js:29-37 | with no movable pawn nothing changes; otherwise one movable pawn is moved and the scores are recomputed |
| HandlersFunctions.AutoMoveReachesAll | backend/handlers/handlersFunctions.js:29-37 | every movable pawn is the one autoplay moves for some draw |
| HandlersFunctions.MakeRandomMove | backend/handlers/handlersFunctions.js:8-49 | one autoplay step, spelled out below this table; what the regular step saves is stated by Invariants.AutoplayRegularOutcome |
| HandlersFunctions.MakeRandomMoveKeepsPendingRoll | backend/handlers/handlersFunctions.js:24-27 | with a roll already pending, the die draw plays no part in the step |
| HandlersFunctions.RescoreAfterMove | backend/handlers/handlersFunctions.js:34-35 | recomputing scores right after a move changes nothing |
| Invariants.MakeRandomMovePreserves | backend/handlers/handlersFunctions.js:8-49 | every saved autoplay step keeps both invariants and leaves no roll pending |
| Invariants.AutoRollPreserves | backend/handlers/handlersFunctions.js:24-27 | the autoplay roll keeps both invariants and leaves the players unchanged |
| Invariants.AutoMovePreserves | backend/handlers/handlersFunctions.js:29-37 | the autoplay move keeps both invariants |
| Invariants.AutoplayRegularPreserves | backend/handlers/handlersFunctions.js:24-49 | without a winner, an expiry win or a missing mover, the step always saves a room that keeps both invariants with no roll pending; it also carries the outcome of AutoplayRegularOutcome |
| Invariants.AutoplayRegularOutcome | backend/handlers/handlersFunctions.js:29-47 | on the regular path, when the move brought all four pawns of a colour home, that colour is the saved winner and nobody moves; otherwise there is no winner and seat (k + 1) mod n moves next, k being the previous mover |
| Invariants.MakeRandomMoveTimeExpiry | backend/handlers/handlersFunctions.js:13-22 | in an expired game with scores, the step ends the game with the colour the score rule picks, moving no pawn and leaving no roll |
| GameHandler.MoveCheck | backend/handlers/gameHandler.js:10-41 | the move checks and their order, spelled out below this table |
| GameHandler.MoveOutcomeOf | backend/handlers/gameHandler.js:49-64 | after a valid move, a colour with all pawns home ends the game without a turn change; otherwise the turn passes |
| GameHandler.HandleMovePawn | backend/handlers/gameHandler.js:8-76 | a failed check is reported and nothing is saved; a missing mover is reported as a move failure, a foreign pawn or a player out of turn as an invalid move, and otherwise the move's outcome is saved |
| GameHandler.HandleMovePawnSavesOnlyOwnMove | backend/handlers/gameHandler.js:8-76 | a move is saved exactly when every check passes and the session holds the moving player of the pawn's colour |
| GameHandler.RollCheck | backend/handlers/gameHandler.js:80-116 | the roll checks and their order, spelled out below this table |
| GameHandler.HandleRollDice | backend/handlers/gameHandler.js:78-152 | a failed check is reported and nothing is saved; otherwise the roll is stored and the turn change is deferred exactly when the player cannot move with it |
| GameHandler.HandleRollDiceOutcome | backend/handlers/gameHandler.js:118-125 | a successful roll stores a value in 0..6 and changes neither the players nor the pawns, so the mover stays the session's player |
| GameHandler.HandleRollDiceReachesAll | backend/handlers/gameHandler.js:118-122 | every face 1..6 is a possible successful roll |
| Invariants.HandleRollDicePreserves | backend/handlers/gameHandler.js:118-147 | a successful roll keeps both invariants and the mover |
| GameHandler.DeferredTurnChange | backend/handlers/gameHandler.js:132-143 | the turn passes exactly when the room is found again with the same roll still stored |
| GameHandler.DeferredTurnChangeAfterMove | backend/handlers/gameHandler.js:132-143 | once a valid move without a winner has been saved, the pending deferred change does nothing |
| GameHandler.DeferredTurnChangeOnce | backend/handlers/gameHandler.js:132-143 | in a room without a winner, a deferred change that fired does nothing when it reads its own result back |
| Invariants.DeferredTurnChangePreserves | backend/handlers/gameHandler.js:132-143 | a deferred change that fires keeps both invariants, clears the roll and hands the turn to the next seat |
| PlayerHandler.Trim | backend/handlers/playerHandler.js:12 | trim returns the slice of the name between its leading and trailing white space, every removed character is white space or a line terminator, and a non-empty result starts and ends with another character |
| PlayerHandler.ValidLogin | backend/handlers/playerHandler.js:12 | the login data passes exactly when it is present, its name is a string, and that string has a character other than white space or a line terminator |
| PlayerHandler.BlankIffAllTrimmed | backend/handlers/playerHandler.js:12 | a name is blank after trim exactly when all its characters are white space or line terminators |
| PlayerHandler.HandleLogin | backend/handlers/playerHandler.js:7-48 | the login outcomes, spelled out below this table |
| PlayerHandler.FirstEligible | backend/handlers/playerHandler.js:29 | the first room that is not full, not started and not private; nothing exactly when there is none |
| PlayerHandler.LoginJoinsChosenRoom | backend/handlers/playerHandler.js:19-43 | a successful login seats the newcomer in the room it chose, with the next palette colour and a matching session; the room starts exactly when it had three players |
| PlayerHandler.LoginReachesFirstTry | backend/handlers/playerHandler.js:19-43 | a successful login is a first join attempt on the chosen room, which has a free seat |
| PlayerHandler.AddPlayerToExistingRoom | backend/handlers/playerHandler.js:98-146 | a room with a free seat is joined directly; a full room sends the newcomer elsewhere |
| PlayerHandler.JoinFirstTry | backend/handlers/playerHandler.js:104-141 | the newcomer gets the next colour in the same room, the game starts exactly when that fills the room, and the session names the room, the newcomer and its colour |
| PlayerHandler.StartIfFull | backend/handlers/playerHandler.js:132-135 | the room starts exactly when it is full, and every seat is kept |
| PlayerHandler.FallbackSeatsElsewhere | backend/handlers/playerHandler.js:106-130 | a full room sends the newcomer to the first eligible room of the fresh listing, or else alone into the fallback room, and that room is not started |
| PlayerHandler.JoinElsewhere | backend/handlers/playerHandler.js:106-130 | the newcomer is seated in the first eligible room of the new listing, or else alone in a new room, which is not started |
| PlayerHandler.ReloadSession | backend/handlers/playerHandler.js:149-169 | the session records the room, its last player and that player's colour; it fails exactly when the room has no players |
| Invariants.JoinFirstTryPreserves | backend/handlers/playerHandler.js:104-141 | a first join attempt on a lobby room keeps both invariants |
| Invariants.JoinElsewherePreserves | backend/handlers/playerHandler.js:106-130 | the fallback join keeps both invariants |
| Invariants.HandleLoginPreserves | backend/handlers/playerHandler.js:7-48 | every successful login, over rooms that satisfy both invariants, yields a room satisfying both |
| PlayerHandler.ToggleReady | backend/handlers/playerHandler.js:77 | only the one player's ready flag flips |
| PlayerHandler.HandleReady | backend/handlers/playerHandler.js:58-96 | rejects in order with notInRoom, roomNotFound, playerNotFound; otherwise it flips the flag and starts the game whenever two players are ready |
| Invariants.HandleReadyValid | backend/handlers/playerHandler.js:58-96 | a ready toggle keeps the structural invariant, even during a game |
| Invariants.HandleReadyInLobby | backend/handlers/playerHandler.js:77-83 | in the lobby, a ready toggle keeps the turn invariant |
| Invariants.HandleReadyTwoMovers | backend/handlers/playerHandler.js:77-83 | a room satisfying both invariants, in which a player un-readies mid-game, is saved with two movers |
| PlayerHandler.HandleReadyEffect | backend/handlers/playerHandler.js:77-83 | a saved toggle flips the caller's flag; with fewer than two then ready nothing else changes; otherwise every player is ready and player 0 moves, even in a game under way |
| PlayerHandler.HandleReadyLobbyOnly | backend/handlers/playerHandler.js:58-96 | the guarded ready toggle, spelled out below this table |
| Invariants.HandleReadyLobbyOnlyPreserves | backend/handlers/playerHandler.js:77-83 | the guarded ready toggle keeps both invariants in every room |
| Invariants.HandleReadyLobbyOnlyOneMover | backend/handlers/playerHandler.js:77-83 | on the counterexample room the guarded toggle keeps one mover |
| RollState.StoredRollOf | backend/models/room.js:19 | the stored die is a value exactly when the model has a roll, and unset exactly when there is none and the field was never written |
| RollState.RollCheckAsWritten | backend/handlers/gameHandler.js:113-116 | the roll checks as written (`!== null`): identical to RollCheck once the field has been written; over an unset roll it refuses with mustMoveFirst exactly where RollCheck lets the roll through |
| RollState.MoveCheckAsWritten | backend/handlers/gameHandler.js:32-35 | the move checks as written (`=== null`): identical to MoveCheck once the field has been written; over an unset roll it skips mustRollFirst and goes on to the pawn lookup |
| RollState.AutoRollAsWritten | backend/handlers/handlersFunctions.js:24-27 | the autoplay roll as written (`=== null`): identical to AutoRoll once the field has been written; over an unset roll no die is thrown |
| RollState.HandleRollDiceAsWritten | backend/handlers/gameHandler.js:80-131 | the roll handler as written: identical to HandleRollDice once the field has been written; over an unset roll it never rolls, and refuses with mustMoveFirst wherever HandleRollDice would roll |
| RollState.FirstTurnRolls | backend/models/room.js:208-230 | right after startGame no roll is stored, the first player may roll and a move is told to roll first |
| RollState.FirstTurnBlockedAsWritten | backend/models/room.js:208-230 | right after startGame, as written, the first player's roll is refused with mustMoveFirst and a move is not told to roll first |
| RollState.FirstTurnExample | backend/handlers/gameHandler.js:32 | a started Red–Blue game: Red's roll, Red's move of pawn 0 and the autoplay roll each behave differently as written and corrected |

Longer contracts, in the order they appear in the table:

- **CaptureProofs.BeatPawnsCapture.** Resolving a landing:
  - sends every pawn of another colour on the square to its base with
    score 0;
  - gives one attacker pawn the sum of their scores;
  - leaves all other pawns untouched;
  - conserves the total score;
  - adds the sum to the attacker's capture tally only when it is positive;
  - recomputes the scores.
- **RoomModel.StartGame.** A started game:
  - has both deadlines stamped;
  - has every player ready, and player 0 moving;
  - keeps the other players' moving flags;
  - has captures at 0 for each player colour;
  - has scores recomputed from the pawns.
- **WinnerProofs.WinnerByScoreExact.** On non-negative scores and tallies:
  - an empty table gives no winner;
  - otherwise the winner is exactly the colour with the top score;
  - among tied colours, it is the one with the most captures, where a
    missing tally counts as 0;
  - it is the first such colour in table order.
- **RoomModel.AddPlayer.** A room with four players refuses and is
  unchanged. Otherwise the newcomer is appended:
  - not ready and not moving;
  - with colour COLORS[old length].

  `full` then holds exactly at four players.
- **Invariants.HandleMovePawnPreserves.** A saved move:
  - keeps both invariants;
  - leaves no roll pending;
  - with all of a colour's pawns home, records that colour and leaves no
    mover; otherwise it hands the turn to the next seat.
- **HandlersFunctions.MakeRandomMove.** One autoplay step:
  - a room with a winner is left alone;
  - a missing room throws;
  - an expired game with a score winner ends with that winner;
  - otherwise the step throws exactly when nobody is moving.
  - a regular step that does not throw saves the room described by Invariants.AutoplayRegularOutcome.
- **GameHandler.MoveCheck.** The first failing check, in source order:
  - notInRoom;
  - roomNotFound;
  - gameEnded;
  - gameNotStarted;
  - mustRollFirst;
  - a move failure for a missing pawn id;
  - pawnNotFound.

  Each check fires exactly under its condition after the earlier ones pass.
- **GameHandler.RollCheck.** The first failing check, in source order:
  - notInRoom;
  - roomNotFound;
  - gameEnded;
  - gameNotStarted;
  - notYourTurn;
  - mustMoveFirst.

  Each check fires exactly under its condition after the earlier ones pass.
- **PlayerHandler.HandleLogin.**
  - An invalid name gives loginFailed.
  - A named room rejects in order: roomNotFound, changeRoom when it is full
    or started, wrongPassword for a private room with another password.
    Otherwise the newcomer joins.
  - Auto-matching always joins.
- **PlayerHandler.HandleReadyLobbyOnly.**
  - It rejects exactly as handleReady does.
  - On a lobby room it behaves exactly as handleReady.
  - In a started game it flips only the caller's ready flag.

## Left out

- Persistence: getRoom, getRooms, createNewRoom and updateRoom are not modelled as code. Rooms read from storage are parameters, and the saved room is the outcome. The save queue and retries are not part of this model.
- endGame's own save: endGame calls `this.save()` without awaiting it (backend/models/room.js:260), and both callers then save the same room again through updateRoom (backend/handlers/gameHandler.js:66, backend/handlers/handlersFunctions.js:47), outside updateRoom's queue. The two saves can overlap. Mongoose usually rejects a second save of a document while one is in flight, which would turn a winning move into moveFailed. The model saves the ended room once and does not model this.
- Timers: timeoutManager, the autoplay timer, the five-minute room deletion and the three-second delay are not modelled. The deferred turn change is modelled as its own step on a freshly read room, with the delay itself left out.
- Socket emits, console logging and markModified have no effect on the room, so they are not modelled. The outcome datatypes record which error event a handler emits.
- Sessions: reload and save are I/O. Their failure paths (the sessionError events) are not modelled; only the values the session receives are.
- handleExit and the disconnect handler are socket and session plumbing outside the engine rules.
- Math.random is a floating-point value. Draws are exact fractions in [0, 1), so rounding effects of floating-point multiplication are not modelled.
- Date.now is the `Clock` parameter; the room name `Room-<time>`, createDate and the timestamps are not modelled.
- Pawn geometry: canMove and getPositionAfterMove of pawn.js are not part of this model. They are the two functions of a `Geometry` parameter.
- player.canMove is not part of this model and is a function parameter of the roll handler.
- changeReadyStatus is not part of this model; it is taken to flip the ready flag.
- COLORS is not part of this model. Its order (red, blue, green, yellow) is inferred from the order getWinner checks the colours in.
- Mongoose ids: pawns are identified by their index and players by a number. A pawn id that is not an index is pawnNotFound; a missing pawn id makes the source throw, which is reported as moveFailed.
- GameHandler.RollCheck: reads a never-written rolledNumber as null and lets the first roll of a game through. The source's `!== null` refuses it with mustMoveFirst; RollState.RollCheckAsWritten models that (see Findings).
- GameHandler.MoveCheck: reads a never-written rolledNumber as null and answers mustRollFirst on the first turn. The source's `=== null` lets the move through; RollState.MoveCheckAsWritten models that (see Findings).
- HandlersFunctions.AutoRoll: throws the die over a never-written rolledNumber. The source's `=== null` throws nothing; RollState.AutoRollAsWritten models that (see Findings).
- HandlersFunctions.MakeRandomMove: through AutoRoll, it throws the die on the first turn, which the source does not (see Findings).
- GameHandler.HandleRollDice: through RollCheck, it lets the first roll of a game through, which the source refuses (see Findings). RollState.HandleRollDiceAsWritten models the source.
- A move made over a never-written rolledNumber, which the source lets through and scores with an undefined die, is not modelled; the corrected model refuses it with mustRollFirst.
- The rollFailed error is declared but never produced. The only exceptions the roll handler could catch come from storage or emits, which are not modelled.
- calculateStepsMoved is not modelled: nothing calls it.
- RoomModel.StartGame: it requires at least one player, because the source dereferences players[0]. Every caller satisfies this: a start needs two ready players or a full room.
- WinnerProofs.WinnerByScoreExact: stated for non-negative scores and tallies only. With a score below -1, the source's initial highest score of -1 would skip that colour, and this is not characterised.
- Invariants.HandleReadyInLobby: the turn invariant is claimed only for lobby rooms, because a started game can break it (see Findings).

## Findings

| source | as written | input that shows it | evidently intended | confidence | as-written member | corrected member |
|---|---|---|---|---|---|---|
| backend/handlers/playerHandler.js:77-83 | the ready toggle re-runs startGame whenever two players are ready, even in a game already under way; startGame sets player 0 moving without clearing the current mover | a started three-player game where player 1 is moving and player 2 toggles ready: two players remain ready, the game restarts, and players 0 and 1 both move | start the game only from the lobby, so a mid-game toggle just flips the flag | medium, not executed | Invariants.HandleReadyTwoMovers | PlayerHandler.HandleReadyLobbyOnly |
| backend/handlers/gameHandler.js:113 | rolledNumber has no default and startGame never assigns it, so after the start it is undefined, not null; the strict tests `!== null` (line 113), `=== null` (line 32) and `=== null` in makeRandomMove (handlersFunctions.js:24) all treat it as a pending roll | a two-player game just started: the first player's roll is refused with mustMoveFirst, their move passes the roll check, and autoplay throws no die; only the first turn change writes null | the first player of a new game rolls first, as on every later turn | medium, not executed | RollState.FirstTurnBlockedAsWritten | RollState.FirstTurnRolls |
