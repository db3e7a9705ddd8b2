/**
  The room aggregate of backend/models/room.js: its default pawns, player
  admission, lobby-to-game transitions, turn rotation, pawn moves with
  scoring and captures, and the two ways a winner is decided.
 */
module RoomModel {
  import opened LudoTypes
  import opened Chance
  import opened ScoreTable
  import opened PawnQueries
  import opened ScoreUtils

  // ---------------------------------------------------------------- defaults

  /** The i-th pawn of a new room: base and start square i, colour by quarter. */
  function DefaultPawn(i: nat): (p: Pawn)
    requires i < 16
    ensures p == Pawn(COLORS[i / 4], i, i, 0)
  {
    var color :=
      if i < 4 then COLORS[0]
      else if i < 8 then COLORS[1]
      else if i < 12 then COLORS[2]
      else COLORS[3];
    Pawn(color, i, i, 0)
  }

  /** The first n default pawns, pushed in index order. */
  function DefaultPawns(n: nat): (ps: seq<Pawn>)
    requires n <= 16
    ensures |ps| == n
    ensures forall i :: 0 <= i < n ==> ps[i].basePos == i && ps[i].position == i && ps[i].score == 0
    ensures forall i :: 0 <= i < n ==> ps[i].color == COLORS[i / 4]
  {
    if n == 0 then [] else DefaultPawns(n - 1) + [DefaultPawn(n - 1)]
  }

  /** The shape the default pawns have and every operation keeps: 16 pawns, 4 per colour, fixed bases. */
  ghost predicate PawnsWellFormed(ps: seq<Pawn>)
  {
    |ps| == 16 && forall i :: 0 <= i < 16 ==> ps[i].color == COLORS[i / 4] && ps[i].basePos == i
  }

  /** A freshly created, public room with no players (createNewRoom). */
  function NewRoom(id: nat): (r: Room)
    ensures |r.pawns| == 16 && r.players == [] && !r.started && !r.full
    ensures forall i :: 0 <= i < 16 ==> r.pawns[i] == Pawn(COLORS[i / 4], i, i, 0)
  {
    Room(id, false, Some(""), false, false, None, None, None, [], None, [], [], DefaultPawns(16))
  }

  // ----------------------------------------------------------------- lookups

  /** Index of the first player flagged as moving (getCurrentlyMovingPlayer). */
  function MoverIndex(players: seq<Player>): (r: Option<nat>)
    ensures r.Some? ==> r.value < |players| && players[r.value].nowMoving
    ensures r.Some? ==> forall j :: 0 <= j < r.value ==> !players[j].nowMoving
    ensures r.None? <==> forall j :: 0 <= j < |players| ==> !players[j].nowMoving
  {
    if |players| == 0 then None
    else if players[0].nowMoving then Some(0)
    else
      var r := MoverIndex(players[1..]);
      assert forall j :: 1 <= j < |players| ==> players[j] == players[1..][j - 1];
      if r.None? then None else Some(r.value + 1)
  }

  /** getCurrentlyMovingPlayer: the first player flagged as moving, if any. */
  function CurrentMover(room: Room): (p: Option<Player>)
    ensures p.Some? <==> exists j :: 0 <= j < |room.players| && room.players[j].nowMoving
    ensures p.Some? ==> p.value.nowMoving && p.value in room.players
    ensures p.Some? ==> exists k :: 0 <= k < |room.players| && p.value == room.players[k] &&
                          forall j :: 0 <= j < k ==> !room.players[j].nowMoving
  {
    match MoverIndex(room.players)
    case None => None
    case Some(k) => Some(room.players[k])
  }

  /** Index of the first player with the given id (getPlayer). */
  function PlayerIndex(players: seq<Player>, id: nat): (r: Option<nat>)
    ensures r.Some? ==> r.value < |players| && players[r.value].id == id
    ensures r.Some? ==> forall j :: 0 <= j < r.value ==> players[j].id != id
    ensures r.None? <==> forall j :: 0 <= j < |players| ==> players[j].id != id
  {
    if |players| == 0 then None
    else if players[0].id == id then Some(0)
    else
      var r := PlayerIndex(players[1..], id);
      assert forall j :: 1 <= j < |players| ==> players[j] == players[1..][j - 1];
      if r.None? then None else Some(r.value + 1)
  }

  function OfColor(c: Color): Pawn -> bool
  {
    (p: Pawn) => p.color == c
  }

  /** The pawns a capture by colour c at square pos sends home. */
  function VictimOf(pos: int, c: Color): Pawn -> bool
  {
    (p: Pawn) => p.position == pos && p.color != c
  }

  function AtHome(c: Color): Pawn -> bool
  {
    (p: Pawn) => p.color == c && p.position == HomeSquare(c)
  }

  /** Pawns of the given colour that the geometry lets move by d. */
  function MovableWith(geo: Geometry, c: Option<Color>, d: int): Pawn -> bool
  {
    (p: Pawn) => Some(p.color) == c && geo.canMove(p, d)
  }

  // ------------------------------------------------------------------ scores

  /** updatePlayerScores: playerScores is recomputed from the pawns. */
  function UpdatePlayerScores(room: Room): (r: Room)
    ensures r == room.(playerScores := r.playerScores)
    ensures forall c :: c in Keys(r.playerScores) <==>
              exists i :: 0 <= i < |room.players| && room.players[i].color == Some(c)
    ensures forall c :: c in Keys(r.playerScores) ==> Get(r.playerScores, c) == Some(PlayerScore(room.pawns, c))
  {
    room.(playerScores := AllPlayerScores(room.pawns, room.players))
  }

  /** updatePawnScore: add to one pawn's score, then recompute; an unknown index is ignored. */
  function UpdatePawnScore(room: Room, i: int, add: int): (r: Room)
    ensures !(0 <= i < |room.pawns|) ==> r == room
    ensures 0 <= i < |room.pawns| ==>
              |r.pawns| == |room.pawns| &&
              r.pawns[i] == room.pawns[i].(score := CalculatePawnScore(room.pawns[i], add)) &&
              (forall j :: 0 <= j < |room.pawns| && j != i ==> r.pawns[j] == room.pawns[j]) &&
              r == room.(pawns := r.pawns, playerScores := AllPlayerScores(r.pawns, room.players))
  {
    if 0 <= i < |room.pawns| then
      var p := room.pawns[i];
      UpdatePlayerScores(room.(pawns := room.pawns[i := p.(score := p.score + add)]))
    else room
  }

  // ---------------------------------------------------------------- captures

  datatype Captured = Captured(pawns: seq<Pawn>, total: int)

  /** One capture: the striker takes the victim's score and the victim goes back to its base with none. */
  function CaptureStep(qs: seq<Pawn>, striker: nat, v: nat): (r: seq<Pawn>)
    requires striker < |qs| && v < |qs|
    ensures |r| == |qs|
    ensures forall i :: 0 <= i < |qs| ==> r[i].color == qs[i].color && r[i].basePos == qs[i].basePos
    ensures ScoresNonNegative(qs) ==> ScoresNonNegative(r)
  {
    var qs1 := qs[striker := qs[striker].(score := qs[striker].score + qs[v].score)];
    qs1[v := qs1[v].(score := 0, position := qs1[v].basePos)]
  }

  /**
    The victims.forEach loop of beatPawns: each victim in turn hands its
    score to the striker and goes back to its base with score 0.
   */
  function ProcessVictims(ps: seq<Pawn>, striker: nat, victims: seq<nat>): (r: Captured)
    requires striker < |ps|
    requires forall k :: 0 <= k < |victims| ==> victims[k] < |ps| && victims[k] != striker
    ensures |r.pawns| == |ps|
    ensures forall i :: 0 <= i < |ps| ==> r.pawns[i].color == ps[i].color && r.pawns[i].basePos == ps[i].basePos
    ensures ScoresNonNegative(ps) ==> r.total >= 0 && ScoresNonNegative(r.pawns)
    decreases |victims|
  {
    if |victims| == 0 then Captured(ps, 0)
    else
      var prev := ProcessVictims(ps, striker, victims[..|victims| - 1]);
      var v := victims[|victims| - 1];
      Captured(CaptureStep(prev.pawns, striker, v), prev.total + prev.pawns[v].score)
  }

  /** The capture tally update: a positive captured total is added to the attacker's entry. */
  function AddCaptures(captures: Table, attacker: Color, total: int): (t: Table)
    ensures total > 0 ==> GetOrZero(t, attacker) == GetOrZero(captures, attacker) + total
    ensures total > 0 ==> forall c :: c != attacker ==> Get(t, c) == Get(captures, c)
    ensures total <= 0 ==> t == captures
    ensures DistinctKeys(captures) ==> DistinctKeys(t)
    ensures NonNegValues(captures) && total >= 0 ==> NonNegValues(t)
  {
    GetOrZeroNonNeg(captures);
    if total > 0 then Put(captures, attacker, GetOrZero(captures, attacker) + total) else captures
  }

  /**
    beatPawns: resolve a landing of colour `attacker` at `pos`. The striker
    is drawn among the attacker's pawns; the captured total is added to the
    attacker's capture tally when positive; scores are recomputed in any case.
   */
  function BeatPawns(room: Room, pos: int, attacker: Color, draw: Draw): (r: Room)
    ensures |r.pawns| == |room.pawns|
    ensures forall i :: 0 <= i < |r.pawns| ==> r.pawns[i].color == room.pawns[i].color && r.pawns[i].basePos == room.pawns[i].basePos
    ensures r == room.(pawns := r.pawns, playerCaptures := r.playerCaptures, playerScores := r.playerScores)
    ensures r.playerScores == AllPlayerScores(r.pawns, r.players)
    ensures DistinctKeys(room.playerCaptures) ==> DistinctKeys(r.playerCaptures)
    ensures NonNegValues(room.playerCaptures) && ScoresNonNegative(room.pawns) ==> NonNegValues(r.playerCaptures)
    ensures ScoresNonNegative(room.pawns) ==> ScoresNonNegative(r.pawns)
  {
    var victims := IndicesWhere(room.pawns, VictimOf(pos, attacker));
    var strikers := IndicesWhere(room.pawns, OfColor(attacker));
    var captured :=
      if |victims| > 0 && |strikers| > 0 then
        var s := strikers[PickIndex(draw, |strikers|)];
        var cap := ProcessVictims(room.pawns, s, victims);
        room.(pawns := cap.pawns, playerCaptures := AddCaptures(room.playerCaptures, attacker, cap.total))
      else room;
    UpdatePlayerScores(captured)
  }

  // ------------------------------------------------------------------- moves

  /**
    The part of movePawn before captures: the pawn goes to the square the
    geometry gives, and earns the die value only if that square differs.
   */
  function Advance(room: Room, k: nat, geo: Geometry): (r: Room)
    requires k < |room.pawns| && room.rolledNumber.Some?
    ensures |r.pawns| == |room.pawns|
    ensures
      var p := room.pawns[k];
      var d := room.rolledNumber.value;
      var target := geo.positionAfterMove(p, d);
      r.pawns[k] == p.(position := target, score := if target != p.position then CalculatePawnScore(p, d) else p.score)
    ensures forall j :: 0 <= j < |room.pawns| && j != k ==> r.pawns[j] == room.pawns[j]
    ensures r == room.(pawns := r.pawns, playerScores := r.playerScores)
  {
    var p := room.pawns[k];
    var d := room.rolledNumber.value;
    var target := geo.positionAfterMove(p, d);
    var placed := room.(pawns := room.pawns[k := p.(position := target)]);
    if target != p.position then UpdatePawnScore(placed, k, d) else placed
  }

  /** movePawn: advance pawn k by the rolled number, then resolve captures where it lands. */
  function MovePawn(room: Room, k: nat, geo: Geometry, draw: Draw): (r: Room)
    requires k < |room.pawns| && room.rolledNumber.Some?
    ensures |r.pawns| == |room.pawns|
    ensures r == room.(pawns := r.pawns, playerCaptures := r.playerCaptures, playerScores := r.playerScores)
  {
    var p := room.pawns[k];
    var target := geo.positionAfterMove(p, room.rolledNumber.value);
    BeatPawns(Advance(room, k, geo), target, p.color, draw)
  }

  /**
    getPawnsThatCanMove: the mover's pawns the geometry lets move by the
    rolled number. The source dereferences the mover, so one must exist.
   */
  function PawnsThatCanMove(room: Room, geo: Geometry): (r: seq<nat>)
    requires MoverIndex(room.players).Some? && room.rolledNumber.Some?
    ensures forall k: nat :: k in r <==>
              k < |room.pawns| &&
              Some(room.pawns[k].color) == room.players[MoverIndex(room.players).value].color &&
              geo.canMove(room.pawns[k], room.rolledNumber.value)
  {
    var mover := room.players[MoverIndex(room.players).value];
    var keep := MovableWith(geo, mover.color, room.rolledNumber.value);
    assert forall p :: keep(p) == (Some(p.color) == mover.color && geo.canMove(p, room.rolledNumber.value));
    IndicesWhere(room.pawns, keep)
  }

  // ------------------------------------------------------------------- turns

  /** The seat after k around a table of n: (k + 1) % n. */
  function NextSeat(k: nat, n: nat): (r: nat)
    requires k < n
    ensures r == (k + 1) % n
    ensures r == if k + 1 < n then k + 1 else 0
  {
    if k + 1 < n then k + 1 else 0
  }

  /**
    The flag passing of changeMovingPlayer: the first mover stops and the
    next player in join order starts, or player 0 starts when nobody moves.
    Only moving flags change.
   */
  function PassTurn(ps: seq<Player>): (r: seq<Player>)
    ensures |r| == |ps|
    ensures forall i :: 0 <= i < |ps| ==> r[i] == ps[i].(nowMoving := r[i].nowMoving)
    ensures MoverIndex(ps).None? && |ps| > 0 ==>
              r[0].nowMoving && forall i :: 1 <= i < |ps| ==> r[i] == ps[i]
    ensures MoverIndex(ps).Some? ==>
              var k := MoverIndex(ps).value;
              var next := NextSeat(k, |ps|);
              && r[next].nowMoving
              && (next != k ==> !r[k].nowMoving)
              && forall i :: 0 <= i < |ps| && i != k && i != next ==> r[i] == ps[i]
  {
    match MoverIndex(ps)
    case None =>
      if |ps| > 0 then ps[0 := ps[0].(nowMoving := true)] else ps
    case Some(k) =>
      var cleared := ps[k := ps[k].(nowMoving := false)];
      var next := NextSeat(k, |ps|);
      cleared[next := cleared[next].(nowMoving := true)]
  }

  /**
    changeMovingPlayer: with a winner nothing happens; otherwise the turn
    passes, the deadline is renewed and the roll cleared.
   */
  function ChangeMovingPlayer(room: Room, clock: Clock): (r: Room)
    ensures room.winner.Some? ==> r == room
    ensures room.winner.None? ==>
              r == room.(players := r.players, rolledNumber := None, nextMoveTime := Some(clock.now + clock.moveTime))
    ensures |r.players| == |room.players|
    ensures forall i :: 0 <= i < |room.players| ==> r.players[i] == room.players[i].(nowMoving := r.players[i].nowMoving)
  {
    if room.winner.Some? then room
    else room.(players := PassTurn(room.players), rolledNumber := None, nextMoveTime := Some(clock.now + clock.moveTime))
  }

  // ------------------------------------------------------------- lifecycle

  function CountReady(players: seq<Player>): nat
  {
    if |players| == 0 then 0
    else CountReady(players[..|players| - 1]) + (if players[|players| - 1].ready then 1 else 0)
  }

  /** canStartGame: at least two players are ready, that is two different seats hold a ready player. */
  function CanStartGame(room: Room): (b: bool)
    ensures b <==> exists i, j :: 0 <= i < j < |room.players| && room.players[i].ready && room.players[j].ready
  {
    TwoReady(room.players);
    CountReady(room.players) >= 2
  }

  /** At least one player is ready exactly when the ready count is positive. */
  lemma {:induction false} SomeReady(players: seq<Player>)
    ensures CountReady(players) >= 1 <==> exists i :: 0 <= i < |players| && players[i].ready
    decreases |players|
  {
    if |players| > 0 {
      var init := players[..|players| - 1];
      SomeReady(init);
      assert forall i :: 0 <= i < |init| ==> init[i] == players[i];
    }
  }

  /** At least two players are ready exactly when two distinct players are ready. */
  lemma {:induction false} TwoReady(players: seq<Player>)
    ensures CountReady(players) >= 2 <==> exists i, j :: 0 <= i < j < |players| && players[i].ready && players[j].ready
    decreases |players|
  {
    if |players| > 0 {
      var n := |players| - 1;
      var init := players[..n];
      TwoReady(init);
      SomeReady(init);
      assert forall i :: 0 <= i < |init| ==> init[i] == players[i];
      if exists i, j :: 0 <= i < j < |players| && players[i].ready && players[j].ready {
        var i, j :| 0 <= i < j < |players| && players[i].ready && players[j].ready;
        if j < n {
          assert init[i].ready && init[j].ready;
        } else {
          assert init[i].ready;
        }
      }
    }
  }

  /** Table with a zero for the colour of every player that has one. */
  function ZeroTable(players: seq<Player>): (t: Table)
    ensures DistinctKeys(t)
    ensures forall c :: c in Keys(t) <==> exists i :: 0 <= i < |players| && players[i].color == Some(c)
    ensures forall c :: c in Keys(t) ==> Get(t, c) == Some(0)
    ensures NonNegValues(t)
  {
    if |players| == 0 then []
    else
      var init := players[..|players| - 1];
      var t := ZeroTable(init);
      var p := players[|players| - 1];
      assert forall i :: 0 <= i < |init| ==> init[i] == players[i];
      if p.color.Some? then Put(t, p.color.value, 0) else t
  }

  /**
    startGame: the game starts with deadlines stamped, every player ready and
    player 0 moving; captures restart at 0 and scores are recomputed from the
    pawns. The source indexes players[0], so the room must not be empty.
   */
  function StartGame(room: Room, clock: Clock): (r: Room)
    requires |room.players| > 0
    ensures r.started
    ensures r.nextMoveTime == Some(clock.now + clock.moveTime)
    ensures r.gameEndTime == Some(clock.now + clock.gameDuration)
    ensures |r.players| == |room.players|
    ensures forall i :: 0 <= i < |r.players| ==> r.players[i].ready
    ensures r.players[0].nowMoving
    ensures forall i :: 1 <= i < |r.players| ==> r.players[i].nowMoving == room.players[i].nowMoving
    ensures forall i :: 0 <= i < |r.players| ==>
              r.players[i] == room.players[i].(ready := true, nowMoving := r.players[i].nowMoving)
    ensures forall c :: c in Keys(r.playerCaptures) ==> Get(r.playerCaptures, c) == Some(0)
    ensures forall c :: c in Keys(r.playerScores) ==> Get(r.playerScores, c) == Some(PlayerScore(room.pawns, c))
    ensures forall c :: (c in Keys(r.playerScores) <==> c in Keys(r.playerCaptures))
    ensures forall c :: c in Keys(r.playerCaptures) <==>
              exists i :: 0 <= i < |room.players| && room.players[i].color == Some(c)
    ensures r == room.(started := true, nextMoveTime := r.nextMoveTime, gameEndTime := r.gameEndTime,
                       players := r.players, playerScores := r.playerScores, playerCaptures := r.playerCaptures)
  {
    var players := AllReady(room.players);
    var zeros := ZeroTable(room.players);
    var stamped := room.(started := true,
                         nextMoveTime := Some(clock.now + clock.moveTime),
                         gameEndTime := Some(clock.now + clock.gameDuration),
                         players := players,
                         playerScores := zeros,
                         playerCaptures := zeros);
    SameColorsSameKeys(room.players, players);
    UpdatePlayerScores(stamped)
  }

  /** Every player marked ready, and player 0 marked moving. */
  function AllReady(players: seq<Player>): (r: seq<Player>)
    requires |players| > 0
    ensures |r| == |players| && r[0].nowMoving
    ensures forall i :: 0 <= i < |r| ==> r[i].ready && r[i].color == players[i].color
    ensures forall i :: 1 <= i < |r| ==> r[i].nowMoving == players[i].nowMoving
    ensures forall i :: 0 <= i < |r| ==> r[i] == players[i].(ready := true, nowMoving := r[i].nowMoving)
  {
    var allReady := seq(|players|, i requires 0 <= i < |players| => players[i].(ready := true));
    allReady[0 := allReady[0].(nowMoving := true)]
  }

  /** Tables computed from players that hold the same colours have the same keys. */
  lemma SameColorsSameKeys(players: seq<Player>, others: seq<Player>)
    requires |players| == |others|
    requires forall i :: 0 <= i < |players| ==> players[i].color == others[i].color
    ensures forall c :: (exists i :: 0 <= i < |players| && players[i].color == Some(c)) <==>
                        (exists i :: 0 <= i < |others| && others[i].color == Some(c))
  {
    forall c | exists i :: 0 <= i < |others| && others[i].color == Some(c)
      ensures exists i :: 0 <= i < |players| && players[i].color == Some(c)
    {
      var i :| 0 <= i < |others| && others[i].color == Some(c);
      assert players[i].color == Some(c);
    }
  }

  /** endGame: the roll and deadline are cleared, nobody moves, the winner is recorded. */
  function EndGame(room: Room, winner: Color): (r: Room)
    ensures r.winner == Some(winner) && r.rolledNumber.None? && r.nextMoveTime.None?
    ensures |r.players| == |room.players|
    ensures forall i :: 0 <= i < |r.players| ==> r.players[i] == room.players[i].(nowMoving := false)
    ensures r == room.(winner := Some(winner), rolledNumber := None, nextMoveTime := None, players := r.players)
  {
    var players := seq(|room.players|, i requires 0 <= i < |room.players| => room.players[i].(nowMoving := false));
    room.(rolledNumber := None, nextMoveTime := None, players := players, winner := Some(winner))
  }

  // ----------------------------------------------------------------- winners

  /** getWinner: the first colour, in palette order, with four pawns on its home square. */
  function GetWinner(room: Room): (r: Option<Color>)
    ensures r.Some? ==> CountWhere(room.pawns, AtHome(r.value)) == 4
    ensures r.Some? ==> forall k :: 0 <= k < ColorIndex(r.value) ==> CountWhere(room.pawns, AtHome(COLORS[k])) != 4
    ensures r.None? <==> forall c :: CountWhere(room.pawns, AtHome(c)) != 4
  {
    if CountWhere(room.pawns, AtHome(Red)) == 4 then Some(Red)
    else if CountWhere(room.pawns, AtHome(Blue)) == 4 then Some(Blue)
    else if CountWhere(room.pawns, AtHome(Green)) == 4 then Some(Green)
    else if CountWhere(room.pawns, AtHome(Yellow)) == 4 then Some(Yellow)
    else None
  }

  datatype ScoreScan = ScoreScan(highest: int, winner: Option<Color>, tied: seq<Color>)

  /** The Object.entries(playerScores).forEach pass of getWinnerByScore. */
  function ScanScores(t: Table): ScoreScan
    decreases |t|
  {
    if |t| == 0 then ScoreScan(-1, None, [])
    else
      var st := ScanScores(t[..|t| - 1]);
      var e := t[|t| - 1];
      if e.value > st.highest then ScoreScan(e.value, Some(e.color), [e.color])
      else if e.value == st.highest then st.(tied := st.tied + [e.color])
      else st
  }

  datatype CaptureScan = CaptureScan(highest: int, winner: Option<Color>)

  /** The tiedPlayers.forEach pass: the first colour with strictly more captures wins. */
  function ScanCaptures(captures: Table, tied: seq<Color>): CaptureScan
    decreases |tied|
  {
    if |tied| == 0 then CaptureScan(-1, None)
    else
      var st := ScanCaptures(captures, tied[..|tied| - 1]);
      var c := tied[|tied| - 1];
      var n := GetOrZero(captures, c);
      if n > st.highest then CaptureScan(n, Some(c)) else st
  }

  /** Every colour the score pass reports, as winner or as tied, is a key of the table. */
  lemma {:induction false} ScanScoresKeys(t: Table)
    ensures ScanScores(t).winner.Some? ==> ScanScores(t).winner.value in Keys(t)
    ensures forall c :: c in ScanScores(t).tied ==> c in Keys(t)
    decreases |t|
  {
    if |t| > 0 {
      var init := t[..|t| - 1];
      ScanScoresKeys(init);
      assert forall i :: 0 <= i < |init| ==> init[i] == t[i];
      assert Keys(init) <= Keys(t);
      assert t[|t| - 1].color in Keys(t);
    }
  }

  /** The capture pass only ever names one of the tied colours. */
  lemma {:induction false} ScanCapturesMember(captures: Table, tied: seq<Color>)
    ensures ScanCaptures(captures, tied).winner.Some? ==> ScanCaptures(captures, tied).winner.value in tied
    decreases |tied|
  {
    if |tied| > 0 {
      ScanCapturesMember(captures, tied[..|tied| - 1]);
    }
  }

  /**
   * getWinnerByScore: highest score, captures break a tie. With no scores there is no winner,
   * and a winner is always a colour that has a score.
   */
  function WinnerByScore(scores: Table, captures: Table): (r: Option<Color>)
    ensures |scores| == 0 ==> r.None?
    ensures r.Some? ==> r.value in Keys(scores)
  {
    ScanScoresKeys(scores);
    var st := ScanScores(scores);
    if |st.tied| > 1 then
      var cw := ScanCaptures(captures, st.tied).winner;
      ScanCapturesMember(captures, st.tied);
      if cw.Some? then cw else st.winner
    else st.winner
  }

  /** isGameTimeExpired: a set, non-zero end time lies strictly before now. */
  function IsGameTimeExpired(room: Room, now: int): (b: bool)
    ensures b <==> room.gameEndTime.Some? && room.gameEndTime.value != 0 && now > room.gameEndTime.value
  {
    match room.gameEndTime
    case None => false
    case Some(t) => t != 0 && now > t
  }

  // ---------------------------------------------------------------- players

  /** isFull: the full flag is refreshed and reported. */
  function IsFull(room: Room): (r: (Room, bool))
    ensures r.1 <==> |room.players| >= 4
    ensures r.0 == room.(full := r.1)
  {
    var f := |room.players| >= 4;
    (room.(full := f), f)
  }

  /**
    addPlayer: a room with four players refuses; otherwise the player joins
    not ready, not moving, with the next palette colour, and `full` is refreshed.
   */
  function AddPlayer(room: Room, name: string, sessionId: nat, newId: nat): (r: (Room, bool))
    ensures !r.1 <==> |room.players| >= 4
    ensures !r.1 ==> r.0 == room
    ensures r.1 ==>
              r.0.players == room.players + [Player(newId, sessionId, name, Some(COLORS[|room.players|]), false, false)]
    ensures r.1 ==> (r.0.full <==> |r.0.players| >= 4)
    ensures r.1 ==> r.0 == room.(players := r.0.players, full := r.0.full)
  {
    if |room.players| >= 4 then (room, false)
    else
      var joined := room.(players := room.players + [Player(newId, sessionId, name, Some(COLORS[|room.players|]), false, false)]);
      (IsFull(joined).0, true)
  }
}
