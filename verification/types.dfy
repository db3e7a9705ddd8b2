/**
  The records of a Ludo room: colours, pawns, players, the colour-keyed
  score tables and the room aggregate itself, plus the parameters that stand
  for what the engine does not decide by itself (track geometry, the clock,
  random draws).
 */
module LudoTypes {

  datatype Option<T> = None | Some(value: T)

  /** The four player colours. */
  datatype Color = Red | Blue | Green | Yellow

  /** The palette in join order: the k-th player to join takes COLORS[k]. */
  const COLORS: seq<Color> := [Red, Blue, Green, Yellow]

  /** Position of a colour in the palette. */
  function ColorIndex(c: Color): (k: nat)
    ensures k < 4 && COLORS[k] == c
  {
    match c
    case Red => 0
    case Blue => 1
    case Green => 2
    case Yellow => 3
  }

  /** The palette lists each colour once. */
  lemma ColorsDistinct(i: nat, j: nat)
    requires i < 4 && j < 4 && i != j
    ensures COLORS[i] != COLORS[j]
  {
  }

  /** The final square a pawn of colour c must reach. */
  function HomeSquare(c: Color): int
  {
    match c
    case Red => 73
    case Blue => 79
    case Green => 85
    case Yellow => 91
  }

  /** A pawn; its identity is its index in the room's pawn sequence. */
  datatype Pawn = Pawn(color: Color, basePos: int, position: int, score: int)

  /** A player; `color` is absent for a record that never received one. */
  datatype Player = Player(
    id: nat,
    sessionId: nat,
    name: string,
    color: Option<Color>,
    ready: bool,
    nowMoving: bool)

  /** One key/value pair of a colour-keyed table (playerScores, playerCaptures). */
  datatype Entry = Entry(color: Color, value: int)

  /** A colour-keyed table, kept in key-insertion order. */
  type Table = seq<Entry>

  datatype Room = Room(
    id: nat,
    isPrivate: bool,
    password: Option<string>,
    started: bool,
    full: bool,
    nextMoveTime: Option<int>,
    gameEndTime: Option<int>,
    rolledNumber: Option<int>,
    players: seq<Player>,
    winner: Option<Color>,
    playerScores: Table,
    playerCaptures: Table,
    pawns: seq<Pawn>)

  /** Track geometry of a pawn: whether it can move by a die value, and where it lands. */
  datatype Geometry = Geometry(
    canMove: (Pawn, int) -> bool,
    positionAfterMove: (Pawn, int) -> int)

  /** The wall clock reading and the two fixed durations of a game. */
  datatype Clock = Clock(now: int, moveTime: int, gameDuration: int)

  /** What a player's session remembers about them. */
  datatype Session = Session(roomId: Option<nat>, playerId: Option<nat>, color: Option<Color>)
}
