/** Level extraction of `process_gex`: the ledger as a table sorted by strike, and the three
    levels read off it with pandas' `idxmax` / `idxmin` (first occurrence wins). */
module LevelExtraction {

  /** One row of the strike table: a strike and its net exposure (`total_gex`). */
  datatype Row = Row(strike: real, totalGex: real)

  /** The three levels: Call Wall, Put Wall and Zero Gamma. */
  datatype Levels = Levels(callWall: real, putWall: real, zeroGamma: real)

  function Abs(x: real): real
  {
    if x < 0.0 then -x else x
  }

  predicate StrictlyIncreasing(s: seq<real>)
  {
    forall i, j :: 0 <= i < j < |s| ==> s[i] < s[j]
  }

  /** The rows are ordered by strictly increasing strike: `StrictlyIncreasing` read on the rows'
      strikes, stated on the rows themselves so that its quantifier triggers on `rows[i].strike`
      without a separate sequence of strikes. */
  predicate SortedRows(rows: seq<Row>)
  {
    forall i, j :: 0 <= i < j < |rows| ==> rows[i].strike < rows[j].strike
  }

  /** `k` is the smallest element of `s`. */
  predicate IsLeast(k: real, s: set<real>)
  {
    k in s && forall j :: j in s ==> k <= j
  }

  lemma {:induction false} LeastExists(s: set<real>)
    requires s != {}
    ensures exists k :: IsLeast(k, s)
    decreases |s|
  {
    // a set different from the empty one has an element
    assert exists x :: x in s by {
      if forall x :: x !in s {
        assert false;
      }
    }
    var x :| x in s;
    if s == {x} {
      assert IsLeast(x, s);
    } else {
      var t := s - {x};
      LeastExists(t);
      var y :| IsLeast(y, t);
      var k := if y < x then y else x;
      forall j | j in s
        ensures k <= j
      {
        if j != x {
          assert j in t;
        }
      }
      assert IsLeast(k, s);
    }
  }

  /** The smallest element of a non-empty finite set of strikes. */
  function Least(s: set<real>): (k: real)
    requires s != {}
    ensures IsLeast(k, s)
  {
    LeastExists(s);
    var k :| k in s && IsLeast(k, s);
    k
  }

  /** The elements of `s` in ascending order (`sort_index`). */
  function Sorted(s: set<real>): (ks: seq<real>)
    ensures |ks| == |s|
    ensures forall i :: 0 <= i < |ks| ==> ks[i] in s
    ensures forall k :: k in s ==> k in ks
    ensures StrictlyIncreasing(ks)
    decreases |s|
  {
    if s == {} then []
    else
      var k := Least(s);
      var t := s - {k};
      var rest := Sorted(t);
      var ks := [k] + rest;
      SortedCons(k, s, rest);
      ks
  }

  lemma SortedCons(k: real, s: set<real>, rest: seq<real>)
    requires IsLeast(k, s)
    requires forall i :: 0 <= i < |rest| ==> rest[i] in s - {k}
    requires forall x :: x in s - {k} ==> x in rest
    requires StrictlyIncreasing(rest)
    ensures forall i :: 0 <= i < |[k] + rest| ==> ([k] + rest)[i] in s
    ensures forall x :: x in s ==> x in [k] + rest
    ensures StrictlyIncreasing([k] + rest)
  {
    var ks := [k] + rest;
    forall i, j | 0 <= i < j < |ks|
      ensures ks[i] < ks[j]
    {
      assert ks[j] == rest[j - 1] && ks[j] in s - {k};
      if i > 0 {
        assert ks[i] == rest[i - 1];
      }
    }
    forall x | x in s
      ensures x in ks
    {
      if x != k {
        assert x in s - {k};
      }
    }
  }

  /** Some row of `rows` is for strike `k`. */
  predicate HasStrike(rows: seq<Row>, k: real)
  {
    exists i :: 0 <= i < |rows| && rows[i].strike == k
  }

  /** Every row carries a strike of `m` and that strike's total. */
  ghost predicate RowsFrom(rows: seq<Row>, m: map<real, real>)
  {
    forall i :: 0 <= i < |rows| ==> rows[i].strike in m && rows[i].totalGex == m[rows[i].strike]
  }

  /** Every strike of `m` has a row. */
  ghost predicate CoversStrikes(rows: seq<Row>, m: map<real, real>)
  {
    forall k :: k in m ==> HasStrike(rows, k)
  }

  /** `rows` is the ledger `m` as a table: one row per strike, ascending by strike. */
  ghost predicate Tabulates(rows: seq<Row>, m: map<real, real>)
  {
    SortedRows(rows) && RowsFrom(rows, m) && CoversStrikes(rows, m)
  }

  /** `pd.DataFrame.from_dict(strikes, orient='index').sort_index()`. */
  function Table(m: map<real, real>): (rows: seq<Row>)
    ensures |rows| == |m|
    ensures Tabulates(rows, m)
  {
    var ks := Sorted(m.Keys);
    var rows := seq(|ks|, i requires 0 <= i < |ks| => Row(ks[i], m[ks[i]]));
    TableOfSortedKeys(ks, m, rows);
    rows
  }

  lemma TableOfSortedKeys(ks: seq<real>, m: map<real, real>, rows: seq<Row>)
    requires StrictlyIncreasing(ks)
    requires forall i :: 0 <= i < |ks| ==> ks[i] in m
    requires forall k :: k in m ==> k in ks
    requires |rows| == |ks| && forall i :: 0 <= i < |ks| ==> rows[i] == Row(ks[i], m[ks[i]])
    ensures Tabulates(rows, m)
  {
    forall k | k in m
      ensures HasStrike(rows, k)
    {
      var i :| 0 <= i < |ks| && ks[i] == k;
      assert rows[i].strike == k;
    }
  }

  /** The `total_gex` column. */
  function Totals(rows: seq<Row>): (xs: seq<real>)
    ensures |xs| == |rows| && forall i :: 0 <= i < |rows| ==> xs[i] == rows[i].totalGex
  {
    seq(|rows|, i requires 0 <= i < |rows| => rows[i].totalGex)
  }

  /** The `total_gex.abs()` column. */
  function AbsTotals(rows: seq<Row>): (xs: seq<real>)
    ensures |xs| == |rows| && forall i :: 0 <= i < |rows| ==> xs[i] == Abs(rows[i].totalGex)
  {
    seq(|rows|, i requires 0 <= i < |rows| => Abs(rows[i].totalGex))
  }

  /** `idxmax` as a position: the first position holding the largest value. */
  function FirstMaxIndex(xs: seq<real>): (i: nat)
    requires |xs| > 0
    ensures i < |xs|
    ensures forall j :: 0 <= j < |xs| ==> xs[j] <= xs[i]
    ensures forall j :: 0 <= j < i ==> xs[j] < xs[i]
    decreases |xs|
  {
    if |xs| == 1 then 0
    else
      var n := |xs| - 1;
      var i := FirstMaxIndex(xs[..n]);
      assert forall j :: 0 <= j < n ==> xs[..n][j] == xs[j];
      if xs[n] > xs[i] then n else i
  }

  /** `idxmin` as a position: the first position holding the smallest value. */
  function FirstMinIndex(xs: seq<real>): (i: nat)
    requires |xs| > 0
    ensures i < |xs|
    ensures forall j :: 0 <= j < |xs| ==> xs[i] <= xs[j]
    ensures forall j :: 0 <= j < i ==> xs[i] < xs[j]
    decreases |xs|
  {
    if |xs| == 1 then 0
    else
      var n := |xs| - 1;
      var i := FirstMinIndex(xs[..n]);
      assert forall j :: 0 <= j < n ==> xs[..n][j] == xs[j];
      if xs[n] < xs[i] then n else i
  }

  /** A strike strictly inside `(0.85 * spot, 1.15 * spot)`. */
  predicate InBand(k: real, spot: real)
  {
    spot * 0.85 < k < spot * 1.15
  }

  /** `df[(df.index > spot * 0.85) & (df.index < spot * 1.15)]`: the rows in the band, in order. */
  function Band(rows: seq<Row>, spot: real): seq<Row>
    decreases |rows|
  {
    if rows == [] then []
    else if InBand(rows[0].strike, spot) then [rows[0]] + Band(rows[1..], spot)
    else Band(rows[1..], spot)
  }

  /** The part of the ledger strictly inside the band around `spot`. */
  function BandLedger(m: map<real, real>, spot: real): map<real, real>
  {
    map k | k in m && InBand(k, spot) :: m[k]
  }

  /** The band holds exactly the in-band rows. */
  lemma {:induction false} BandMembers(rows: seq<Row>, spot: real)
    ensures forall r :: r in Band(rows, spot) <==> r in rows && InBand(r.strike, spot)
    decreases |rows|
  {
    if rows != [] {
      BandMembers(rows[1..], spot);
      assert rows == [rows[0]] + rows[1..];
    }
  }

  /** The band keeps the order of the rows. */
  lemma {:induction false} BandSorted(rows: seq<Row>, spot: real)
    requires SortedRows(rows)
    ensures SortedRows(Band(rows, spot))
    decreases |rows|
  {
    if rows != [] {
      var tail := rows[1..];
      BandSorted(tail, spot);
      BandMembers(tail, spot);
      var rest := Band(tail, spot);
      forall i | 0 <= i < |rest|
        ensures rows[0].strike < rest[i].strike
      {
        assert rest[i] in tail;
        var j :| 0 <= j < |tail| && tail[j] == rest[i];
        assert rows[j + 1] == tail[j];
      }
      if InBand(rows[0].strike, spot) {
        ConsSorted(rows[0], rest);
      }
    }
  }

  lemma ConsSorted(r: Row, rest: seq<Row>)
    requires SortedRows(rest)
    requires forall i :: 0 <= i < |rest| ==> r.strike < rest[i].strike
    ensures SortedRows([r] + rest)
  {
    var sub := [r] + rest;
    forall i, j | 0 <= i < j < |sub|
      ensures sub[i].strike < sub[j].strike
    {
      assert sub[j] == rest[j - 1];
      if i > 0 {
        assert sub[i] == rest[i - 1];
      }
    }
  }

  /** The band of a table of the ledger is a table of the in-band part of the ledger. */
  lemma BandTabulates(rows: seq<Row>, m: map<real, real>, spot: real)
    requires Tabulates(rows, m)
    ensures Tabulates(Band(rows, spot), BandLedger(m, spot))
  {
    var sub, b := Band(rows, spot), BandLedger(m, spot);
    BandMembers(rows, spot);
    BandSorted(rows, spot);
    forall i | 0 <= i < |sub|
      ensures sub[i].strike in b && sub[i].totalGex == b[sub[i].strike]
    {
      assert sub[i] in sub;
      var j :| 0 <= j < |rows| && rows[j] == sub[i];
    }
    forall k | k in b
      ensures HasStrike(sub, k)
    {
      var j :| 0 <= j < |rows| && rows[j].strike == k;
      assert rows[j] in sub;
      var i :| 0 <= i < |sub| && sub[i] == rows[j];
    }
  }

  /** The levels of a ledger: all three are `spot` for an empty ledger; otherwise the strikes of
      the largest and of the smallest total, and the in-band strike of smallest absolute total
      (`spot` when no strike is in the band). */
  function ExtractLevels(m: map<real, real>, spot: real): (r: Levels)
    ensures m == map[] ==> r == Levels(spot, spot, spot)
  {
    if |m| == 0 then Levels(spot, spot, spot)
    else
      var rows := Table(m);
      var band := Band(rows, spot);
      Levels(
        rows[FirstMaxIndex(Totals(rows))].strike,
        rows[FirstMinIndex(Totals(rows))].strike,
        if band == [] then spot else band[FirstMinIndex(AbsTotals(band))].strike)
  }

  /** Reference definition of the Call Wall: a strike of maximal total, the lowest one on ties. */
  ghost predicate IsCallWall(m: map<real, real>, c: real)
  {
    && c in m
    && (forall k :: k in m ==> m[k] <= m[c])
    && (forall k :: k in m && k < c ==> m[k] < m[c])
  }

  /** Reference definition of the Put Wall: a strike of minimal total, the lowest one on ties. */
  ghost predicate IsPutWall(m: map<real, real>, p: real)
  {
    && p in m
    && (forall k :: k in m ==> m[p] <= m[k])
    && (forall k :: k in m && k < p ==> m[p] < m[k])
  }

  /** Reference definition of Zero Gamma: a strike strictly inside the band of minimal absolute
      total, the lowest one on ties; `spot` itself when no strike is in the band. */
  ghost predicate IsZeroGamma(m: map<real, real>, spot: real, z: real)
  {
    var b := BandLedger(m, spot);
    if b == map[] then z == spot
    else
      && z in b
      && (forall k :: k in b ==> Abs(b[z]) <= Abs(b[k]))
      && (forall k :: k in b && k < z ==> Abs(b[z]) < Abs(b[k]))
  }

  lemma FirstMaxRowIsCallWall(rows: seq<Row>, m: map<real, real>)
    requires Tabulates(rows, m) && |rows| > 0
    ensures IsCallWall(m, rows[FirstMaxIndex(Totals(rows))].strike)
  {
    var xs := Totals(rows);
    var i := FirstMaxIndex(xs);
    forall k | k in m
      ensures m[k] <= m[rows[i].strike]
      ensures k < rows[i].strike ==> m[k] < m[rows[i].strike]
    {
      var j :| 0 <= j < |rows| && rows[j].strike == k;
      assert xs[j] <= xs[i];
      assert k < rows[i].strike ==> j < i;
    }
  }

  /** On a table of the ledger, the first row of smallest total is the Put Wall. */
  lemma FirstMinRowIsPutWall(rows: seq<Row>, m: map<real, real>)
    requires Tabulates(rows, m) && |rows| > 0
    ensures IsPutWall(m, rows[FirstMinIndex(Totals(rows))].strike)
  {
    var xs := Totals(rows);
    var i := FirstMinIndex(xs);
    forall k | k in m
      ensures m[rows[i].strike] <= m[k]
      ensures k < rows[i].strike ==> m[rows[i].strike] < m[k]
    {
      var j :| 0 <= j < |rows| && rows[j].strike == k;
      assert xs[i] <= xs[j];
      assert k < rows[i].strike ==> j < i;
    }
  }

  /** On a table of the ledger, the first row of smallest absolute total is for a strike of
      minimal absolute total, the lowest one on ties. */
  lemma FirstMinAbsRowIsFlattest(rows: seq<Row>, m: map<real, real>)
    requires Tabulates(rows, m) && |rows| > 0
    ensures var z := rows[FirstMinIndex(AbsTotals(rows))].strike;
      && z in m
      && (forall k :: k in m ==> Abs(m[z]) <= Abs(m[k]))
      && (forall k :: k in m && k < z ==> Abs(m[z]) < Abs(m[k]))
  {
    var xs := AbsTotals(rows);
    var i := FirstMinIndex(xs);
    forall k | k in m
      ensures Abs(m[rows[i].strike]) <= Abs(m[k])
      ensures k < rows[i].strike ==> Abs(m[rows[i].strike]) < Abs(m[k])
    {
      var j :| 0 <= j < |rows| && rows[j].strike == k;
      assert xs[i] <= xs[j];
      assert k < rows[i].strike ==> j < i;
    }
  }

  /** The extracted Call Wall is a strike of maximal total, the lowest on ties. */
  lemma CallWallIsHighest(m: map<real, real>, spot: real)
    requires m != map[]
    ensures IsCallWall(m, ExtractLevels(m, spot).callWall)
  {
    FirstMaxRowIsCallWall(Table(m), m);
  }

  /** The extracted Put Wall is a strike of minimal total, the lowest on ties. */
  lemma PutWallIsLowest(m: map<real, real>, spot: real)
    requires m != map[]
    ensures IsPutWall(m, ExtractLevels(m, spot).putWall)
  {
    FirstMinRowIsPutWall(Table(m), m);
  }

  /** The extracted Zero Gamma is an in-band strike of minimal absolute total, the lowest on
      ties, or `spot` when no strike lies strictly inside the band. */
  lemma ZeroGammaIsFlattest(m: map<real, real>, spot: real)
    ensures IsZeroGamma(m, spot, ExtractLevels(m, spot).zeroGamma)
  {
    if m != map[] {
      var rows := Table(m);
      var band, b := Band(rows, spot), BandLedger(m, spot);
      BandTabulates(rows, m, spot);
      if band == [] {
        assert b == map[];
      } else {
        assert band[0].strike in b;
        FirstMinAbsRowIsFlattest(band, b);
      }
    }
  }

  /** The Put Wall's total never exceeds the Call Wall's. */
  lemma PutWallBelowCallWall(m: map<real, real>, spot: real)
    requires m != map[]
    ensures m[ExtractLevels(m, spot).putWall] <= m[ExtractLevels(m, spot).callWall]
  {
    CallWallIsHighest(m, spot);
    PutWallIsLowest(m, spot);
  }

  /** The reference definitions pick one strike each, so the extracted levels are exactly the
      strikes that satisfy them. */
  lemma {:induction false} LevelsCharacterised(m: map<real, real>, spot: real, c: real, p: real, z: real)
    requires m != map[]
    ensures ExtractLevels(m, spot).callWall == c <==> IsCallWall(m, c)
    ensures ExtractLevels(m, spot).putWall == p <==> IsPutWall(m, p)
    ensures ExtractLevels(m, spot).zeroGamma == z <==> IsZeroGamma(m, spot, z)
  {
    var r := ExtractLevels(m, spot);
    CallWallIsHighest(m, spot);
    PutWallIsLowest(m, spot);
    ZeroGammaIsFlattest(m, spot);
  }
}
