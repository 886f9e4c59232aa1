/** Worked examples of `process_gex` on small option chains, stated as lemmas. */
module Scenarios {
  import opened Wrappers
  import opened Records
  import Text
  import opened StrikeLedger
  import opened LevelExtraction

  /** A record with the given name, open interest and gamma. */
  function Quote(name: string, oi: real, gamma: real): Entry
  {
    Entry(Some(name), Some(Num(oi)), Some(map["gamma" := Num(gamma)]))
  }

  /** A record whose name is canonical, whose strike field parses and whose open interest is
      not 0 is admitted with the name's strike and side and the record's gamma and open interest. */
  lemma QuoteAdmitted(fields: seq<string>, oi: real, gamma: real, toFloat: Parser)
    requires |fields| >= 4 && forall i :: 0 <= i < |fields| ==> '-' !in fields[i]
    requires toFloat(fields[2]).Some? && oi != 0.0
    ensures Admit(Quote(Text.Join(fields, '-'), oi, gamma), toFloat) == Admitted(toFloat(fields[2]).value, fields[3], gamma, oi)
  {
    var e := Quote(Text.Join(fields, '-'), oi, gamma);
    CanonicalNameFields(e, fields, toFloat);
    assert |e.greeks.value| == 1;
  }

  /** A call and a put that differ only in their side field, with a parseable strike field and
      non-zero open interest: their strike's bucket is created and ends at 0 (for instance
      `BTC-27MAR26-60000-C` and `BTC-27MAR26-60000-P` with open interest 10 and gamma 0.001). */
  lemma CallAndPutCancel(underlying: string, expiry: string, strike: string, oi: real, gamma: real, spot: real, toFloat: Parser)
    requires '-' !in underlying && '-' !in expiry && '-' !in strike
    requires toFloat(strike).Some? && oi != 0.0
    ensures var call, put := Quote(Text.Join([underlying, expiry, strike, "C"], '-'), oi, gamma),
                             Quote(Text.Join([underlying, expiry, strike, "P"], '-'), oi, gamma);
      Ledger(spot, [call, put], toFloat) == map[toFloat(strike).value := 0.0]
  {
    var callFields, putFields := [underlying, expiry, strike, "C"], [underlying, expiry, strike, "P"];
    QuoteAdmitted(callFields, oi, gamma, toFloat);
    QuoteAdmitted(putFields, oi, gamma, toFloat);
    var call, put := Quote(Text.Join(callFields, '-'), oi, gamma), Quote(Text.Join(putFields, '-'), oi, gamma);
    CallPutCancel(spot, [], call, put, toFloat);
    assert [] + [call, put] == [call, put];
    assert Ledger(spot, [], toFloat) == map[];
  }

  /** A ledger with a single strike: that strike is both walls, and it is the zero-gamma
      level when it lies inside the band (otherwise the spot is). */
  lemma SingleStrike(k: real, x: real, spot: real)
    ensures ExtractLevels(map[k := x], spot) == Levels(k, k, if InBand(k, spot) then k else spot)
  {
    var m := map[k := x];
    var z := if InBand(k, spot) then k else spot;
    assert m.Keys == {k};
    assert BandLedger(m, spot) == if InBand(k, spot) then m else map[];
    LevelsCharacterised(m, spot, k, k, z);
  }

  /** The levels of the two-strike ledger below, checked against the reference definitions. */
  lemma TwoStrikeReference(m: map<real, real>)
    requires m == map[59000.0 := -5.0, 60000.0 := 3.0]
    ensures IsCallWall(m, 60000.0) && IsPutWall(m, 59000.0) && IsZeroGamma(m, 60000.0, 60000.0)
  {
    assert m.Keys == {59000.0, 60000.0};
    assert BandLedger(m, 60000.0) == m;
  }

  /** Strikes 59000 at -5 and 60000 at +3 with the spot at 60000: the zero-gamma level is
      the strike with the smaller absolute exposure, 60000, with no interpolation between them. */
  lemma NoInterpolation()
    ensures ExtractLevels(map[59000.0 := -5.0, 60000.0 := 3.0], 60000.0) == Levels(60000.0, 59000.0, 60000.0)
  {
    var m := map[59000.0 := -5.0, 60000.0 := 3.0];
    TwoStrikeReference(m);
    LevelsCharacterised(m, 60000.0, 60000.0, 59000.0, 60000.0);
  }
}
