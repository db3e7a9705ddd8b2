/**
  The lobby actions of backend/handlers/playerHandler.js: logging in (which
  joins a named room or an automatically chosen one, falling back to another
  room when the chosen one refuses) and toggling readiness. What the handlers
  read from storage, the ids storage assigns and the clock are parameters;
  session persistence and the emitted events are reduced to the outcome.
 */
module PlayerHandler {
  import opened LudoTypes
  import opened RoomModel

  // ------------------------------------------------------------------ input

  /** The `name` field of the login payload. */
  datatype NameField = Absent | NotText | Text(s: string)

  /** The login payload. */
  datatype LoginData = LoginData(name: NameField, roomId: Option<nat>, password: Option<string>)

  /** The characters String.prototype.trim removes: white space and line terminators. */
  predicate IsTrimmed(c: char)
  {
    c == '\t' || c == '\n' || c == '\U{000B}' || c == '\U{000C}' || c == '\r' || c == ' ' ||
    c == '\U{00A0}' || c == '\U{1680}' || ('\U{2000}' <= c <= '\U{200A}') ||
    c == '\U{2028}' || c == '\U{2029}' || c == '\U{202F}' || c == '\U{205F}' ||
    c == '\U{3000}' || c == '\U{FEFF}'
  }

  /** trimStart: s without its leading trimmed characters. */
  function TrimStart(s: string): (t: string)
    ensures |t| <= |s| && t == s[|s| - |t|..]
    ensures |t| > 0 ==> !IsTrimmed(t[0])
    ensures forall k :: 0 <= k < |s| - |t| ==> IsTrimmed(s[k])
    decreases |s|
  {
    if |s| == 0 || !IsTrimmed(s[0]) then s
    else
      var t := TrimStart(s[1..]);
      assert forall k :: 1 <= k < |s| ==> s[k] == s[1..][k - 1];
      t
  }

  /** trimEnd: s without its trailing trimmed characters. */
  function TrimEnd(s: string): (t: string)
    ensures |t| <= |s| && t == s[..|t|]
    ensures |t| > 0 ==> !IsTrimmed(t[|t| - 1])
    ensures forall k :: |t| <= k < |s| ==> IsTrimmed(s[k])
    decreases |s|
  {
    if |s| == 0 || !IsTrimmed(s[|s| - 1]) then s
    else
      var t := TrimEnd(s[..|s| - 1]);
      assert forall k :: 0 <= k < |s| - 1 ==> s[k] == s[..|s| - 1][k];
      t
  }

  /**
   * String.prototype.trim: the slice of s that starts after the leading trimmed characters and
   * ends before the trailing ones; when it is not empty, both of its ends are untrimmed.
   */
  function Trim(s: string): (t: string)
    ensures var i := |s| - |TrimStart(s)|;
            && i + |t| <= |s| && t == s[i..i + |t|]
            && (forall k :: 0 <= k < i ==> IsTrimmed(s[k]))
            && (forall k :: i + |t| <= k < |s| ==> IsTrimmed(s[k]))
    ensures |t| > 0 ==> !IsTrimmed(t[0]) && !IsTrimmed(t[|t| - 1])
  {
    var u := TrimStart(s);
    var t := TrimEnd(u);
    TrimEndOfSuffix(s, u, t);
    t
  }

  /** A prefix t of the suffix u of s is a slice of s, and what follows t in u follows it in s. */
  lemma TrimEndOfSuffix(s: string, u: string, t: string)
    requires |u| <= |s| && u == s[|s| - |u|..] && |t| <= |u| && t == u[..|t|]
    ensures var i := |s| - |u|; i + |t| <= |s| && t == s[i..i + |t|]
    ensures var i := |s| - |u|; forall k :: i + |t| <= k < |s| ==> s[k] == u[k - i]
  {
  }

  /** A name is blank when trim leaves nothing, that is when every character is trimmed. */
  lemma BlankIffAllTrimmed(s: string)
    ensures Trim(s) == "" <==> forall k :: 0 <= k < |s| ==> IsTrimmed(s[k])
  {
  }

  /** The login payload passes the name check: present, a string, not blank. */
  function ValidLogin(data: Option<LoginData>): (b: bool)
    ensures b <==> && data.Some? && data.value.name.Text?
                   && exists k :: 0 <= k < |data.value.name.s| && !IsTrimmed(data.value.name.s[k])
  {
    if data.Some? && data.value.name.Text? then
      BlankIffAllTrimmed(data.value.name.s);
      Trim(data.value.name.s) != ""
    else false
  }

  // ---------------------------------------------------------------- storage

  /**
    What the login flow reads from storage: the room named by the payload,
    the room listing read for auto-matching and the one read again on the
    fallback path, the ids storage gives the rooms it may create, and the id
    the new player record receives.
   */
  datatype Storage = Storage(
    byId: Option<Room>,
    listing: seq<Room>,
    relisting: seq<Room>,
    newRoomId: nat,
    fallbackRoomId: nat,
    newPlayerId: nat)

  /** A room a player can be matched into: not full, not started, not private. */
  predicate Eligible(room: Room)
  {
    |room.players| < 4 && !room.started && !room.isPrivate
  }

  /** Index of the first eligible room (rooms.find). */
  function FirstEligible(rooms: seq<Room>): (r: Option<nat>)
    ensures r.Some? ==> r.value < |rooms| && Eligible(rooms[r.value])
    ensures r.Some? ==> forall j :: 0 <= j < r.value ==> !Eligible(rooms[j])
    ensures r.None? <==> forall j :: 0 <= j < |rooms| ==> !Eligible(rooms[j])
  {
    if |rooms| == 0 then None
    else if Eligible(rooms[0]) then Some(0)
    else
      var r := FirstEligible(rooms[1..]);
      assert forall j :: 1 <= j < |rooms| ==> rooms[j] == rooms[1..][j - 1];
      if r.Some? then Some(r.value + 1) else None
  }

  // ---------------------------------------------------------------- joining

  datatype LoginError = LoginFailed | LoginRoomNotFound | ChangeRoom | WrongPassword

  datatype LoginOutcome = LoginRejected(error: LoginError) | Joined(room: Room, session: Session)

  /**
    reloadSession: the session records the room and the last player of it,
    with that player's colour (or the palette colour of their index).
   */
  function ReloadSession(room: Room): (s: Option<Session>)
    ensures s.None? <==> |room.players| == 0
    ensures s.Some? ==>
              var last := room.players[|room.players| - 1];
              s.value.roomId == Some(room.id) && s.value.playerId == Some(last.id) &&
              (last.color.Some? ==> s.value.color == last.color)
  {
    if |room.players| == 0 then None
    else
      var i := |room.players| - 1;
      var p := room.players[i];
      Some(Session(Some(room.id), Some(p.id), if p.color.Some? then p.color else if i < 4 then Some(COLORS[i]) else None))
  }

  /** Save `room` and bind the session to its newest player. */
  function Finish(room: Room): LoginOutcome
  {
    match ReloadSession(room)
    case None => LoginRejected(LoginFailed)
    case Some(s) => Joined(room, s)
  }

  /** Two player records for the same seat: same id, session, name and colour. */
  predicate SameSeat(p: Player, q: Player)
  {
    p.id == q.id && p.sessionId == q.sessionId && p.name == q.name && p.color == q.color
  }

  /**
    `now` is `before` plus one newcomer with the given name, session and id,
    in the next palette colour; flags (ready, moving) may differ.
   */
  ghost predicate Seated(now: seq<Player>, before: seq<Player>, name: string, sessionId: nat, id: nat)
  {
    |before| < 4 && |now| == |before| + 1 &&
    (forall i :: 0 <= i < |before| ==> SameSeat(now[i], before[i])) &&
    SameSeat(now[|before|], Player(id, sessionId, name, Some(COLORS[|before|]), false, false))
  }

  /**
    addPlayerToExistingRoom: add the player to `room`; if it refuses, to the
    first eligible room of a fresh listing, else to a new room. A room the
    player fills on the first try starts its game; the fallback path starts
    nothing.
   */
  function AddPlayerToExistingRoom(room: Room, name: string, sessionId: nat, st: Storage, clock: Clock): (r: LoginOutcome)
    ensures |room.players| < 4 ==> r == JoinFirstTry(room, name, sessionId, st, clock)
    ensures |room.players| >= 4 ==> r == JoinElsewhere(name, sessionId, st)
  {
    var added := AddPlayer(room, name, sessionId, st.newPlayerId);
    if !added.1 then JoinElsewhere(name, sessionId, st)
    else JoinFirstTry(room, name, sessionId, st, clock)
  }

  /**
    The first try succeeded: the newcomer takes the next seat, the session
    is bound to them, and a room they fill starts its game.
   */
  function JoinFirstTry(room: Room, name: string, sessionId: nat, st: Storage, clock: Clock): (r: LoginOutcome)
    requires |room.players| < 4
    ensures r.Joined? && r.room.id == room.id && r.room.pawns == room.pawns
    ensures Seated(r.room.players, room.players, name, sessionId, st.newPlayerId)
    ensures r.room.started <==> room.started || |room.players| == 3
    ensures r.session == Session(Some(room.id), Some(st.newPlayerId), Some(COLORS[|room.players|]))
  {
    var joined := AddPlayer(room, name, sessionId, st.newPlayerId).0;
    var saved := StartIfFull(joined, clock);
    SeatedAfterJoin(room.players, joined.players, saved.players, name, sessionId, st.newPlayerId);
    Finish(saved)
  }

  /** Appending the newcomer, then changing only flags, seats the newcomer after the others. */
  lemma SeatedAfterJoin(before: seq<Player>, joined: seq<Player>, now: seq<Player>, name: string, sessionId: nat, id: nat)
    requires |before| < 4
    requires joined == before + [Player(id, sessionId, name, Some(COLORS[|before|]), false, false)]
    requires |now| == |joined| && forall i :: 0 <= i < |now| ==> SameSeat(now[i], joined[i])
    ensures Seated(now, before, name, sessionId, id)
    ensures now[|before|].id == id && now[|before|].color == Some(COLORS[|before|])
  {
    assert forall i :: 0 <= i < |before| ==> joined[i] == before[i];
  }

  /** The auto-start after a join: a room that isFull reports full starts its game. */
  function StartIfFull(joined: Room, clock: Clock): (r: Room)
    ensures r.id == joined.id && r.pawns == joined.pawns && |r.players| == |joined.players|
    ensures forall i :: 0 <= i < |r.players| ==> SameSeat(r.players[i], joined.players[i])
    ensures r.started <==> joined.started || |joined.players| >= 4
  {
    var checked := IsFull(joined);
    if checked.1 then StartGame(checked.0, clock) else checked.0
  }

  /** The chosen room refused: join the first eligible room of a fresh listing, or a new room. */
  function JoinElsewhere(name: string, sessionId: nat, st: Storage): (r: LoginOutcome)
    ensures r.Joined? && !r.room.started && |r.room.players| <= 4
    ensures match FirstEligible(st.relisting)
            case Some(i) => r.room.id == st.relisting[i].id &&
                            Seated(r.room.players, st.relisting[i].players, name, sessionId, st.newPlayerId)
            case None => r.room.id == st.fallbackRoomId && Seated(r.room.players, [], name, sessionId, st.newPlayerId)
  {
    var fallback := AddPlayer(NewRoom(st.fallbackRoomId), name, sessionId, st.newPlayerId).0;
    match FirstEligible(st.relisting)
    case Some(i) =>
      var alt := AddPlayer(st.relisting[i], name, sessionId, st.newPlayerId);
      if alt.1 then Finish(alt.0) else Finish(fallback)
    case None => Finish(fallback)
  }

  /**
    handleLogin: the name is checked first; a named room must exist, have
    room, not be started, and (when private) match the password, in that
    order; without a room id the first eligible room of the listing is
    taken, or a new one is created.
   */
  function HandleLogin(data: Option<LoginData>, sessionId: nat, st: Storage, clock: Clock): (r: LoginOutcome)
    ensures !ValidLogin(data) ==> r == LoginRejected(LoginFailed)
    ensures ValidLogin(data) && data.value.roomId.Some? ==>
              && (r == LoginRejected(LoginRoomNotFound) <==> st.byId.None?)
              && (r == LoginRejected(ChangeRoom) <==>
                    st.byId.Some? && (|st.byId.value.players| >= 4 || st.byId.value.started))
              && (r == LoginRejected(WrongPassword) <==>
                    st.byId.Some? && |st.byId.value.players| < 4 && !st.byId.value.started &&
                    st.byId.value.isPrivate && st.byId.value.password != data.value.password)
              && (r.Joined? <==>
                    st.byId.Some? && |st.byId.value.players| < 4 && !st.byId.value.started &&
                    !(st.byId.value.isPrivate && st.byId.value.password != data.value.password))
    ensures ValidLogin(data) && data.value.roomId.None? ==> r.Joined?
  {
    if !ValidLogin(data) then LoginRejected(LoginFailed)
    else
      var name := data.value.name.s;
      match data.value.roomId
      case Some(_) =>
        if st.byId.None? then LoginRejected(LoginRoomNotFound)
        else
          var (checked, isFull) := IsFull(st.byId.value);
          if isFull then LoginRejected(ChangeRoom)
          else if checked.started then LoginRejected(ChangeRoom)
          else if checked.isPrivate && checked.password != data.value.password then LoginRejected(WrongPassword)
          else AddPlayerToExistingRoom(checked, name, sessionId, st, clock)
      case None =>
        var room := match FirstEligible(st.listing)
                    case Some(i) => st.listing[i]
                    case None => NewRoom(st.newRoomId);
        AddPlayerToExistingRoom(room, name, sessionId, st, clock)
  }

  /** The room a valid login tries first: the named room, or the first eligible one, or a new one. */
  function ChosenRoom(data: LoginData, st: Storage): Option<Room>
  {
    match data.roomId
    case Some(_) => st.byId
    case None =>
      match FirstEligible(st.listing)
      case Some(i) => Some(st.listing[i])
      case None => Some(NewRoom(st.newRoomId))
  }

  /**
    A successful login seats the newcomer in the room it chose, never in a
    fallback room: the chosen room always has a free seat. The session is
    bound to the newcomer and their colour, and the game starts exactly
    when the newcomer takes the fourth seat.
   */
  lemma LoginJoinsChosenRoom(data: Option<LoginData>, sessionId: nat, st: Storage, clock: Clock)
    requires ValidLogin(data)
    requires HandleLogin(data, sessionId, st, clock).Joined?
    ensures ChosenRoom(data.value, st).Some?
    ensures var r := HandleLogin(data, sessionId, st, clock);
            var chosen := ChosenRoom(data.value, st).value;
            && r.room.id == chosen.id && r.room.pawns == chosen.pawns
            && Seated(r.room.players, chosen.players, data.value.name.s, sessionId, st.newPlayerId)
            && (r.room.started <==> |chosen.players| == 3)
            && r.session == Session(Some(chosen.id), Some(st.newPlayerId), Some(COLORS[|chosen.players|]))
  {
    var name := data.value.name.s;
    var room := if data.value.roomId.Some? then IsFull(st.byId.value).0 else ChosenRoom(data.value, st).value;
    LoginReachesFirstTry(data, sessionId, st, clock);
    assert room.id == ChosenRoom(data.value, st).value.id;
    assert room.pawns == ChosenRoom(data.value, st).value.pawns;
    assert room.players == ChosenRoom(data.value, st).value.players;
  }

  /** A successful login is the first try on the chosen room (with its full flag refreshed when named). */
  lemma LoginReachesFirstTry(data: Option<LoginData>, sessionId: nat, st: Storage, clock: Clock)
    requires ValidLogin(data)
    requires HandleLogin(data, sessionId, st, clock).Joined?
    ensures ChosenRoom(data.value, st).Some?
    ensures var room := if data.value.roomId.Some? then IsFull(st.byId.value).0 else ChosenRoom(data.value, st).value;
            && |room.players| < 4
            && HandleLogin(data, sessionId, st, clock) == JoinFirstTry(room, data.value.name.s, sessionId, st, clock)
  {
    if data.value.roomId.Some? {
      NamedRoomFirstTry(data, sessionId, st, clock);
    } else {
      var room := ChosenRoom(data.value, st).value;
      assert Eligible(room) || room == NewRoom(st.newRoomId);
      assert HandleLogin(data, sessionId, st, clock) ==
             AddPlayerToExistingRoom(room, data.value.name.s, sessionId, st, clock);
    }
  }

  lemma NamedRoomFirstTry(data: Option<LoginData>, sessionId: nat, st: Storage, clock: Clock)
    requires ValidLogin(data) && data.value.roomId.Some?
    requires HandleLogin(data, sessionId, st, clock).Joined?
    ensures st.byId.Some? && |st.byId.value.players| < 4
    ensures HandleLogin(data, sessionId, st, clock) ==
            AddPlayerToExistingRoom(IsFull(st.byId.value).0, data.value.name.s, sessionId, st, clock)
  {
  }



  /**
    When the room refuses the newcomer, the fallback seats them in the first
    eligible room of the fresh listing, or else in a new room; either way no
    game is started by this join.
   */
  lemma FallbackSeatsElsewhere(room: Room, name: string, sessionId: nat, st: Storage, clock: Clock)
    requires |room.players| >= 4
    ensures var r := AddPlayerToExistingRoom(room, name, sessionId, st, clock);
            && r.Joined?
            && (match FirstEligible(st.relisting)
                case Some(i) => r.room.id == st.relisting[i].id && !r.room.started &&
                                Seated(r.room.players, st.relisting[i].players, name, sessionId, st.newPlayerId)
                case None => r.room.id == st.fallbackRoomId && !r.room.started &&
                             Seated(r.room.players, [], name, sessionId, st.newPlayerId))
  {
  }

  // ------------------------------------------------------------------ ready

  datatype ReadyError = NotInRoom | RoomNotFound | PlayerNotFound

  datatype ReadyOutcome = ReadyRejected(error: ReadyError) | ReadySaved(room: Room)

  /** The room with player k's ready flag flipped (changeReadyStatus). */
  function ToggleReady(room: Room, k: nat): (r: Room)
    requires k < |room.players|
    ensures |r.players| == |room.players|
    ensures r.players[k] == room.players[k].(ready := !room.players[k].ready)
    ensures forall j :: 0 <= j < |room.players| && j != k ==> r.players[j] == room.players[j]
    ensures r == room.(players := r.players)
  {
    room.(players := room.players[k := room.players[k].(ready := !room.players[k].ready)])
  }

  /**
    handleReady: without a room or player in the session, without the room,
    or without that player in it, the call is rejected in that order.
    Otherwise the player's ready flag flips and the game starts whenever at
    least two players are ready, whether or not it had already started.
   */
  function HandleReady(session: Session, fetched: Option<Room>, clock: Clock): (r: ReadyOutcome)
    ensures r == ReadyRejected(NotInRoom) <==> session.roomId.None? || session.playerId.None?
    ensures r == ReadyRejected(RoomNotFound) <==> session.roomId.Some? && session.playerId.Some? && fetched.None?
    ensures r == ReadyRejected(PlayerNotFound) <==>
              session.roomId.Some? && session.playerId.Some? && fetched.Some? &&
              PlayerIndex(fetched.value.players, session.playerId.value).None?
    ensures r.ReadySaved? ==>
              var k := PlayerIndex(fetched.value.players, session.playerId.value).value;
              var toggled := ToggleReady(fetched.value, k);
              r.room == if CanStartGame(toggled) then StartGame(toggled, clock) else toggled
  {
    if session.roomId.None? || session.playerId.None? then ReadyRejected(NotInRoom)
    else
      match fetched
      case None => ReadyRejected(RoomNotFound)
      case Some(room) =>
        match PlayerIndex(room.players, session.playerId.value)
        case None => ReadyRejected(PlayerNotFound)
        case Some(k) =>
          var toggled := ToggleReady(room, k);
          ReadySaved(if CanStartGame(toggled) then StartGame(toggled, clock) else toggled)
  }

  /**
    handleReady with the start guarded by the game not being under way yet:
    in the lobby it behaves as handleReady, and in a started game a toggle
    only flips the caller's ready flag.
   */
  function HandleReadyLobbyOnly(session: Session, fetched: Option<Room>, clock: Clock): (r: ReadyOutcome)
    ensures r.ReadyRejected? <==> HandleReady(session, fetched, clock).ReadyRejected?
    ensures r.ReadyRejected? ==> r == HandleReady(session, fetched, clock)
    ensures fetched.Some? && !fetched.value.started ==> r == HandleReady(session, fetched, clock)
    ensures r.ReadySaved? && fetched.value.started ==>
              var k := PlayerIndex(fetched.value.players, session.playerId.value).value;
              && |r.room.players| == |fetched.value.players|
              && r.room.players[k] == fetched.value.players[k].(ready := !fetched.value.players[k].ready)
              && (forall j :: 0 <= j < |fetched.value.players| && j != k ==> r.room.players[j] == fetched.value.players[j])
              && r.room == fetched.value.(players := r.room.players)
  {
    if session.roomId.None? || session.playerId.None? then ReadyRejected(NotInRoom)
    else
      match fetched
      case None => ReadyRejected(RoomNotFound)
      case Some(room) =>
        match PlayerIndex(room.players, session.playerId.value)
        case None => ReadyRejected(PlayerNotFound)
        case Some(k) =>
          var toggled := ToggleReady(room, k);
          ReadySaved(if !room.started && CanStartGame(toggled) then StartGame(toggled, clock) else toggled)
  }

  /**
    A saved ready toggle flips the caller's flag. If fewer than two players
    are then ready, nothing else changes; otherwise startGame runs, even in
    a game already under way, marking everyone ready and player 0 moving.
   */
  lemma HandleReadyEffect(session: Session, fetched: Option<Room>, clock: Clock)
    requires HandleReady(session, fetched, clock).ReadySaved?
    ensures var room := fetched.value;
            var r := HandleReady(session, fetched, clock).room;
            var k := PlayerIndex(room.players, session.playerId.value).value;
            && |r.players| == |room.players| && r.players[k].id == session.playerId.value
            && (r.started <==> room.started || CanStartGame(ToggleReady(room, k)))
            && (!CanStartGame(ToggleReady(room, k)) ==>
                  r.players[k].ready == !room.players[k].ready &&
                  forall j :: 0 <= j < |room.players| && j != k ==> r.players[j] == room.players[j])
            && (CanStartGame(ToggleReady(room, k)) ==>
                  r.players[0].nowMoving && forall j :: 0 <= j < |r.players| ==> r.players[j].ready)
  {
  }
}
