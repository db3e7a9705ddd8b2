/**
  `pawns.filter(...)` as used throughout the room: the indices of the pawns
  that pass a test, in array order, and how many there are.
 */
module PawnQueries {
  import opened LudoTypes

  /** Indices of the pawns that pass `keep`, in array order. */
  function IndicesWhere(ps: seq<Pawn>, keep: Pawn -> bool): (r: seq<nat>)
    ensures forall k :: 0 <= k < |r| ==> r[k] < |ps| && keep(ps[r[k]])
    ensures forall i :: 0 <= i < |ps| && keep(ps[i]) ==> i in r
    ensures forall k, l :: 0 <= k < l < |r| ==> r[k] < r[l]
    decreases |ps|
  {
    if |ps| == 0 then []
    else
      var r := IndicesWhere(ps[..|ps| - 1], keep);
      if keep(ps[|ps| - 1]) then r + [|ps| - 1] else r
  }

  /** `pawns.filter(keep).length`. */
  function CountWhere(ps: seq<Pawn>, keep: Pawn -> bool): nat
    decreases |ps|
  {
    if |ps| == 0 then 0
    else CountWhere(ps[..|ps| - 1], keep) + (if keep(ps[|ps| - 1]) then 1 else 0)
  }

  lemma {:induction false} CountIsLength(ps: seq<Pawn>, keep: Pawn -> bool)
    ensures |IndicesWhere(ps, keep)| == CountWhere(ps, keep)
    decreases |ps|
  {
    if |ps| > 0 {
      CountIsLength(ps[..|ps| - 1], keep);
    }
  }

  lemma {:induction false} CountAppend(a: seq<Pawn>, b: seq<Pawn>, keep: Pawn -> bool)
    ensures CountWhere(a + b, keep) == CountWhere(a, keep) + CountWhere(b, keep)
    decreases |b|
  {
    if |b| == 0 {
      assert a + b == a;
    } else {
      assert (a + b)[..|a + b| - 1] == a + b[..|b| - 1];
      CountAppend(a, b[..|b| - 1], keep);
    }
  }

  /** A filter that keeps everything keeps |ps| pawns; one that keeps nothing keeps none. */
  lemma {:induction false} CountUniform(ps: seq<Pawn>, keep: Pawn -> bool)
    ensures (forall i :: 0 <= i < |ps| ==> keep(ps[i])) ==> CountWhere(ps, keep) == |ps|
    ensures (forall i :: 0 <= i < |ps| ==> !keep(ps[i])) ==> CountWhere(ps, keep) == 0
    decreases |ps|
  {
    if |ps| > 0 {
      CountUniform(ps[..|ps| - 1], keep);
    }
  }

  /**
    A stricter filter keeps at most as many pawns, and exactly as many only
    when it agrees with the looser one on every pawn.
   */
  lemma {:induction false} CountStricter(ps: seq<Pawn>, loose: Pawn -> bool, strict: Pawn -> bool)
    requires forall i :: 0 <= i < |ps| && strict(ps[i]) ==> loose(ps[i])
    ensures CountWhere(ps, strict) <= CountWhere(ps, loose)
    ensures CountWhere(ps, strict) == CountWhere(ps, loose) <==>
              forall i :: 0 <= i < |ps| && loose(ps[i]) ==> strict(ps[i])
    decreases |ps|
  {
    if |ps| > 0 {
      var init := ps[..|ps| - 1];
      CountStricter(init, loose, strict);
      if CountWhere(ps, strict) == CountWhere(ps, loose) {
        assert forall i :: 0 <= i < |init| ==> init[i] == ps[i];
      } else {
        var i := |ps| - 1;
        if loose(ps[i]) && !strict(ps[i]) {
        } else {
          var j :| 0 <= j < |init| && loose(init[j]) && !strict(init[j]);
          assert ps[j] == init[j];
        }
      }
    }
  }
}
