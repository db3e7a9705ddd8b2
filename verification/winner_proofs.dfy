/**
  The two ways a game is won: four pawns of one colour on that colour's
  home square (getWinner), and the highest score with captures as the
  tie-break once time has run out (getWinnerByScore).
 */
module WinnerProofs {
  import opened LudoTypes
  import opened ScoreTable
  import opened PawnQueries
  import opened RoomModel

  // ------------------------------------------------------- traditional win

  /** Every pawn of colour c stands on c's home square. */
  ghost predicate AllHome(ps: seq<Pawn>, c: Color)
  {
    forall i :: 0 <= i < |ps| && ps[i].color == c ==> ps[i].position == HomeSquare(c)
  }

  /** In a well-formed pawn array each colour owns exactly four pawns. */
  lemma FourPawnsPerColor(ps: seq<Pawn>, c: Color)
    requires PawnsWellFormed(ps)
    ensures CountWhere(ps, OfColor(c)) == 4
  {
    var keep := OfColor(c);
    var b0, b1, b2, b3 := ps[..4], ps[4..8], ps[8..12], ps[12..];
    assert ps == b0 + b1 + b2 + b3;
    CountAppend(b0 + b1 + b2, b3, keep);
    CountAppend(b0 + b1, b2, keep);
    CountAppend(b0, b1, keep);
    BlockCount(ps, b0, 0, c);
    BlockCount(ps, b1, 1, c);
    BlockCount(ps, b2, 2, c);
    BlockCount(ps, b3, 3, c);
    var k := ColorIndex(c);
    forall q | 0 <= q < 4 && q != k ensures COLORS[q] != c {
      ColorsDistinct(q, k);
    }
  }

  /** The q-th block of four pawns has colour COLORS[q] throughout. */
  lemma BlockCount(ps: seq<Pawn>, block: seq<Pawn>, q: nat, c: Color)
    requires PawnsWellFormed(ps) && q < 4 && block == ps[4 * q .. 4 * q + 4]
    ensures CountWhere(block, OfColor(c)) == if COLORS[q] == c then 4 else 0
  {
    forall i | 0 <= i < 4 ensures block[i].color == COLORS[q] {
      assert block[i] == ps[4 * q + i];
      assert (4 * q + i) / 4 == q;
    }
    CountUniform(block, OfColor(c));
  }

  /** Four pawns of c at home means every pawn of c is at home. */
  lemma CountHomeExact(ps: seq<Pawn>, c: Color)
    requires PawnsWellFormed(ps)
    ensures CountWhere(ps, AtHome(c)) == 4 <==> AllHome(ps, c)
  {
    FourPawnsPerColor(ps, c);
    CountStricter(ps, OfColor(c), AtHome(c));
  }

  /**
    getWinner returns colour c exactly when all of c's pawns are home and no
    colour earlier in the palette has all of its pawns home; it returns
    nothing exactly when no colour has all pawns home.
   */
  lemma GetWinnerExact(room: Room, c: Color)
    requires PawnsWellFormed(room.pawns)
    ensures GetWinner(room) == Some(c) <==>
              AllHome(room.pawns, c) && forall k :: 0 <= k < ColorIndex(c) ==> !AllHome(room.pawns, COLORS[k])
    ensures GetWinner(room).None? <==> forall d :: !AllHome(room.pawns, d)
  {
    CountHomeExact(room.pawns, Red);
    CountHomeExact(room.pawns, Blue);
    CountHomeExact(room.pawns, Green);
    CountHomeExact(room.pawns, Yellow);
  }

  // ------------------------------------------------------------ score win

  /** The highest value in a non-empty table. */
  ghost function MaxScore(t: Table): int
    requires |t| > 0
    decreases |t|
  {
    if |t| == 1 then t[0].value
    else
      var m := MaxScore(t[..|t| - 1]);
      if t[|t| - 1].value > m then t[|t| - 1].value else m
  }

  /** Colours whose value is v, in table order. */
  ghost function TopScorers(t: Table, v: int): seq<Color>
    decreases |t|
  {
    if |t| == 0 then []
    else TopScorers(t[..|t| - 1], v) + (if t[|t| - 1].value == v then [t[|t| - 1].color] else [])
  }

  lemma {:induction false} MaxScoreBounds(t: Table)
    requires |t| > 0
    ensures forall i :: 0 <= i < |t| ==> t[i].value <= MaxScore(t)
    ensures exists i :: 0 <= i < |t| && t[i].value == MaxScore(t)
    decreases |t|
  {
    if |t| == 1 {
      assert t[0].value == MaxScore(t);
    } else {
      var n := |t| - 1;
      var init := t[..n];
      MaxScoreBounds(init);
      var i :| 0 <= i < |init| && init[i].value == MaxScore(init);
      assert t[i] == init[i];
      assert forall j :: 0 <= j < |init| ==> t[j] == init[j];
      if t[n].value > MaxScore(init) {
        assert t[n].value == MaxScore(t);
      } else {
        assert t[i].value == MaxScore(t);
      }
    }
  }

  lemma {:induction false} TopScorersMembers(t: Table, v: int)
    ensures forall c :: c in TopScorers(t, v) <==> exists i :: 0 <= i < |t| && t[i].color == c && t[i].value == v
    decreases |t|
  {
    if |t| > 0 {
      var init := t[..|t| - 1];
      TopScorersMembers(init, v);
      assert forall j :: 0 <= j < |init| ==> t[j] == init[j];
      forall c | exists i :: 0 <= i < |t| && t[i].color == c && t[i].value == v
        ensures c in TopScorers(t, v)
      {
        var i :| 0 <= i < |t| && t[i].color == c && t[i].value == v;
        if i < |init| {
          assert init[i].color == c && init[i].value == v;
        }
      }
    }
  }

  lemma {:induction false} TopScorersNone(t: Table, v: int)
    requires forall i :: 0 <= i < |t| ==> t[i].value < v
    ensures TopScorers(t, v) == []
    decreases |t|
  {
    if |t| > 0 {
      TopScorersNone(t[..|t| - 1], v);
    }
  }

  /**
    The first pass of getWinnerByScore on non-negative scores: it ends with
    the maximum score, the colours holding it in table order, and the first
    of them as provisional winner.
   */
  lemma {:induction false} ScanScoresSpec(t: Table)
    requires |t| > 0 && NonNegValues(t)
    ensures ScanScores(t).highest == MaxScore(t)
    ensures ScanScores(t).tied == TopScorers(t, MaxScore(t))
    ensures |ScanScores(t).tied| > 0 && ScanScores(t).winner == Some(ScanScores(t).tied[0])
    decreases |t|
  {
    var n := |t| - 1;
    var init := t[..n];
    var e := t[n];
    if n == 0 {
      assert ScanScores(init) == ScoreScan(-1, None, []);
      assert TopScorers(init, e.value) == [];
    } else {
      assert forall j :: 0 <= j < n ==> init[j] == t[j];
      ScanScoresSpec(init);
      var m := MaxScore(init);
      if e.value > m {
        MaxScoreBounds(init);
        TopScorersNone(init, e.value);
      }
    }
  }

  /** The tie-break pass on non-negative tallies picks the first colour with the most captures. */
  lemma {:induction false} ScanCapturesSpec(captures: Table, ts: seq<Color>) returns (m: nat)
    requires |ts| > 0
    requires forall c :: GetOrZero(captures, c) >= 0
    ensures CaptureWinnerAt(captures, ts, m, ScanCaptures(captures, ts))
    decreases |ts|
  {
    var n := |ts| - 1;
    var init := ts[..n];
    var st := ScanCaptures(captures, ts);
    if n == 0 {
      assert ScanCaptures(captures, init) == CaptureScan(-1, None);
      assert st == CaptureScan(GetOrZero(captures, ts[0]), Some(ts[0]));
      m := 0;
    } else {
      var k := ScanCapturesSpec(captures, init);
      var prev := ScanCaptures(captures, init);
      if GetOrZero(captures, ts[n]) > prev.highest {
        assert st == CaptureScan(GetOrZero(captures, ts[n]), Some(ts[n]));
        CaptureWinnerNew(captures, ts, k, prev);
        m := n;
      } else {
        assert st == prev;
        CaptureWinnerKept(captures, ts, k, prev);
        m := k;
      }
    }
  }

  /** A last colour with more captures than the leader becomes the leader. */
  lemma CaptureWinnerNew(captures: Table, ts: seq<Color>, m: int, st: CaptureScan)
    requires |ts| > 1
    requires CaptureWinnerAt(captures, ts[..|ts| - 1], m, st)
    requires GetOrZero(captures, ts[|ts| - 1]) > st.highest
    ensures var n := |ts| - 1;
            CaptureWinnerAt(captures, ts, n, CaptureScan(GetOrZero(captures, ts[n]), Some(ts[n])))
  {
    var n := |ts| - 1;
    var init := ts[..n];
    assert forall j :: 0 <= j < n ==> init[j] == ts[j];
  }

  /** A last colour with no more captures than the leader leaves the leader in place. */
  lemma CaptureWinnerKept(captures: Table, ts: seq<Color>, m: int, st: CaptureScan)
    requires |ts| > 1
    requires CaptureWinnerAt(captures, ts[..|ts| - 1], m, st)
    requires GetOrZero(captures, ts[|ts| - 1]) <= st.highest
    ensures CaptureWinnerAt(captures, ts, m, st)
  {
    var n := |ts| - 1;
    var init := ts[..n];
    assert forall j :: 0 <= j < n ==> init[j] == ts[j];
  }

  /** The scan state names ts[m], holding the most captures, strictly more than any earlier colour. */
  ghost predicate CaptureWinnerAt(captures: Table, ts: seq<Color>, m: int, st: CaptureScan)
  {
    0 <= m < |ts| && st.winner == Some(ts[m]) &&
    st.highest == GetOrZero(captures, ts[m]) &&
    (forall j :: 0 <= j < |ts| ==> GetOrZero(captures, ts[j]) <= GetOrZero(captures, ts[m])) &&
    (forall j :: 0 <= j < m ==> GetOrZero(captures, ts[j]) < GetOrZero(captures, ts[m]))
  }

  /**
    The colour getWinnerByScore should return: among the colours holding the
    top score, one with the most captures (a missing tally counts as 0), the
    earliest in table order when those tie too.
   */
  ghost predicate IsScoreWinner(scores: Table, captures: Table, c: Color)
  {
    |scores| > 0 &&
    var ts := TopScorers(scores, MaxScore(scores));
    exists m :: 0 <= m < |ts| && ts[m] == c &&
      (forall j :: 0 <= j < |ts| ==> GetOrZero(captures, ts[j]) <= GetOrZero(captures, c)) &&
      (forall j :: 0 <= j < m ==> GetOrZero(captures, ts[j]) < GetOrZero(captures, c))
  }

  /**
    getWinnerByScore on non-negative scores and tallies: nothing for an
    empty table, and otherwise exactly the colour IsScoreWinner describes.
   */
  lemma WinnerByScoreExact(scores: Table, captures: Table, c: Color)
    requires NonNegValues(scores) && NonNegValues(captures)
    ensures |scores| == 0 ==> WinnerByScore(scores, captures).None?
    ensures |scores| > 0 ==> WinnerByScore(scores, captures).Some?
    ensures WinnerByScore(scores, captures) == Some(c) <==> IsScoreWinner(scores, captures, c)
  {
    if |scores| > 0 {
      var w := WinnerByScoreFound(scores, captures);
      if IsScoreWinner(scores, captures, c) {
        ScoreWinnerUnique(scores, captures, c, w);
      }
    }
  }

  lemma WinnerByScoreFound(scores: Table, captures: Table) returns (w: Color)
    requires NonNegValues(scores) && NonNegValues(captures) && |scores| > 0
    ensures WinnerByScore(scores, captures) == Some(w) && IsScoreWinner(scores, captures, w)
  {
    GetOrZeroNonNeg(captures);
    ScanScoresSpec(scores);
    var st := ScanScores(scores);
    var ts := st.tied;
    assert ts == TopScorers(scores, MaxScore(scores));
    if |ts| > 1 {
      var m := ScanCapturesSpec(captures, ts);
      w := ts[m];
      assert WinnerByScore(scores, captures) == Some(w);
    } else {
      w := ts[0];
      assert WinnerByScore(scores, captures) == Some(w);
      assert |ts| == 1;
    }
  }

  lemma ScoreWinnerUnique(scores: Table, captures: Table, c: Color, w: Color)
    requires IsScoreWinner(scores, captures, c) && IsScoreWinner(scores, captures, w)
    ensures c == w
  {
    var ts := TopScorers(scores, MaxScore(scores));
    var m1 :| 0 <= m1 < |ts| && ts[m1] == c &&
      (forall j :: 0 <= j < |ts| ==> GetOrZero(captures, ts[j]) <= GetOrZero(captures, c)) &&
      (forall j :: 0 <= j < m1 ==> GetOrZero(captures, ts[j]) < GetOrZero(captures, c));
    var m2 :| 0 <= m2 < |ts| && ts[m2] == w &&
      (forall j :: 0 <= j < |ts| ==> GetOrZero(captures, ts[j]) <= GetOrZero(captures, w)) &&
      (forall j :: 0 <= j < m2 ==> GetOrZero(captures, ts[j]) < GetOrZero(captures, w));
    assert GetOrZero(captures, ts[m1]) <= GetOrZero(captures, w);
    assert GetOrZero(captures, ts[m2]) <= GetOrZero(captures, c);
  }

  /** Scores {red: 10, blue: 10, green: 7} with captures {red: 3, blue: 5}: blue wins the tie-break. */
  lemma WinnerByScoreExample()
    ensures WinnerByScore([Entry(Red, 10), Entry(Blue, 10), Entry(Green, 7)], [Entry(Red, 3), Entry(Blue, 5)])
            == Some(Blue)
  {
    var scores := [Entry(Red, 10), Entry(Blue, 10), Entry(Green, 7)];
    var captures := [Entry(Red, 3), Entry(Blue, 5)];
    assert scores[..2] == [Entry(Red, 10), Entry(Blue, 10)];
    assert scores[..2][..1] == [Entry(Red, 10)];
    assert ScanScores(scores[..2][..1]) == ScoreScan(10, Some(Red), [Red]);
    assert ScanScores(scores[..2]) == ScoreScan(10, Some(Red), [Red, Blue]);
    assert ScanScores(scores) == ScoreScan(10, Some(Red), [Red, Blue]);
    assert GetOrZero(captures, Red) == 3;
    assert GetOrZero(captures, Blue) == 5;
    assert [Red, Blue][..1] == [Red];
    assert ScanCaptures(captures, [Red]) == CaptureScan(3, Some(Red));
    assert ScanCaptures(captures, [Red, Blue]) == CaptureScan(5, Some(Blue));
  }
}
