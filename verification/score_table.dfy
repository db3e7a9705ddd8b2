/**
  Colour-keyed tables with the semantics of a JavaScript object whose keys
  are colour names: keys keep their insertion order, reading a missing key
  gives nothing, and `t[c] = v` overwrites an existing key in place or
  appends a new one.
 */
module ScoreTable {
  import opened LudoTypes

  function Keys(t: Table): set<Color>
  {
    set i | 0 <= i < |t| :: t[i].color
  }

  /** No key occurs twice, as in any JavaScript object. */
  predicate DistinctKeys(t: Table)
  {
    forall i, j :: 0 <= i < j < |t| ==> t[i].color != t[j].color
  }

  /** Every value of the table is at least 0. */
  predicate NonNegValues(t: Table)
  {
    forall i :: 0 <= i < |t| ==> t[i].value >= 0
  }

  /** Position of key c, if present. */
  function Find(t: Table, c: Color): (r: Option<nat>)
    ensures r.Some? ==> r.value < |t| && t[r.value].color == c
    ensures r.Some? ==> forall j :: 0 <= j < r.value ==> t[j].color != c
    ensures r.None? <==> c !in Keys(t)
  {
    if |t| == 0 then None
    else if t[0].color == c then Some(0)
    else
      var r := Find(t[1..], c);
      assert forall x :: x in Keys(t) <==> x == t[0].color || x in Keys(t[1..]) by {
        forall x ensures x in Keys(t) <==> x == t[0].color || x in Keys(t[1..]) {
          if x in Keys(t) {
            var i :| 0 <= i < |t| && t[i].color == x;
            if i > 0 { assert t[1..][i - 1].color == x; }
          }
          if x in Keys(t[1..]) {
            var i :| 0 <= i < |t[1..]| && t[1..][i].color == x;
            assert t[i + 1].color == x;
          }
        }
      }
      if r.None? then None else Some(r.value + 1)
  }

  /** `t[c]`: the value stored under c, if any. */
  function Get(t: Table, c: Color): (r: Option<int>)
    ensures r.Some? <==> c in Keys(t)
  {
    match Find(t, c)
    case None => None
    case Some(i) => Some(t[i].value)
  }

  /** `t[c] || 0`: a missing key (or a zero) reads as 0. */
  function GetOrZero(t: Table, c: Color): (v: int)
    ensures c !in Keys(t) ==> v == 0
    ensures c in Keys(t) ==> Get(t, c) == Some(v)
  {
    match Get(t, c)
    case None => 0
    case Some(v) => v
  }

  /** `t[c] = v`. */
  function Put(t: Table, c: Color, v: int): (r: Table)
    ensures Get(r, c) == Some(v)
    ensures forall d :: d != c ==> Get(r, d) == Get(t, d)
    ensures Keys(r) == Keys(t) + {c}
    ensures DistinctKeys(t) ==> DistinctKeys(r)
    ensures c in Keys(t) ==> |r| == |t|
    ensures c !in Keys(t) ==> |r| == |t| + 1 && r[|t|] == Entry(c, v)
    ensures forall i :: 0 <= i < |t| ==> r[i].color == t[i].color
    ensures forall i :: 0 <= i < |t| && t[i].color != c ==> r[i] == t[i]
    ensures NonNegValues(t) && v >= 0 ==> NonNegValues(r)
  {
    match Find(t, c)
    case Some(i) =>
      var r := t[i := Entry(c, v)];
      SameKeysSameFind(t, r);
      assert Keys(r) == Keys(t) by {
        assert forall j :: 0 <= j < |t| ==> r[j].color == t[j].color;
      }
      r
    case None =>
      var r := t + [Entry(c, v)];
      assert Keys(r) == Keys(t) + {c} by {
        assert r[|t|].color == c;
        assert forall j :: 0 <= j < |t| ==> r[j] == t[j];
      }
      forall d | d != c ensures Get(r, d) == Get(t, d) {
        PrefixFind(t, r, d);
      }
      assert Find(r, c) == Some(|t|);
      r
  }

  /** Writing a new key appends one entry at the end. */
  lemma PutNewKey(t: Table, c: Color, v: int)
    requires c !in Keys(t)
    ensures Put(t, c, v) == t + [Entry(c, v)]
  {
    var r := Put(t, c, v);
    assert forall i :: 0 <= i < |t| ==> t[i].color in Keys(t);
    assert forall i :: 0 <= i < |t| ==> r[i] == t[i];
  }

  /** Find only reads the keys. */
  lemma SameKeysSameFind(t: Table, u: Table)
    requires |t| == |u| && forall i :: 0 <= i < |t| ==> t[i].color == u[i].color
    ensures forall c :: Find(t, c) == Find(u, c)
  {
    assert Keys(t) == Keys(u) by {
      forall c | c in Keys(t) ensures c in Keys(u) {
        var i :| 0 <= i < |t| && t[i].color == c;
        assert u[i].color == c;
      }
    }
    forall c ensures Find(t, c) == Find(u, c) {
      var a, b := Find(t, c), Find(u, c);
    }
  }

  /** A key already present in t is found at the same place after appending. */
  lemma PrefixFind(t: Table, u: Table, d: Color)
    requires |t| < |u| && forall i :: 0 <= i < |t| ==> u[i] == t[i]
    requires forall i :: |t| <= i < |u| ==> u[i].color != d
    ensures Find(u, d) == Find(t, d)
    ensures Get(u, d) == Get(t, d)
  {
    var a, b := Find(t, d), Find(u, d);
    if a.Some? {
      assert u[a.value].color == d;
    }
  }

  /** Reading a table of non-negative values gives a non-negative value, missing keys included. */
  lemma GetOrZeroNonNeg(t: Table)
    ensures NonNegValues(t) ==> forall c :: GetOrZero(t, c) >= 0
  {
    forall c | NonNegValues(t) ensures GetOrZero(t, c) >= 0 {
      if c in Keys(t) {
        var i := Find(t, c).value;
        assert Get(t, c) == Some(t[i].value);
      }
    }
  }
}
