/** `process_gex`: one pass over the option chain that admits records, accumulates the signed
    gamma exposure per strike and logs rejections of the first five records, followed by the
    extraction of the call wall, the put wall and the zero-gamma level from the ledger. */
module Gex {
  import opened Records
  import Text
  import opened StrikeLedger
  import opened DebugLog
  import opened LevelExtraction

  /** The whole computation. `table` is the ledger sorted by strike (the `DataFrame` the code
      returns), the three levels are those of the ledger, and `debugLog` holds the logged rejections. */
  method ProcessGex(spot: real, data: seq<Entry>, toFloat: Parser)
    returns (table: seq<Row>, callWall: real, putWall: real, zeroGamma: real, debugLog: seq<LogEntry>)
    ensures table == Table(Ledger(spot, data, toFloat))
    ensures Levels(callWall, putWall, zeroGamma) == ExtractLevels(Ledger(spot, data, toFloat), spot)
    ensures debugLog == Log(data, toFloat)
  {
    var strikes: map<real, real> := map[];
    debugLog := [];
    for i := 0 to |data|
      invariant strikes == Ledger(spot, data[..i], toFloat)
      invariant debugLog == Log(data[..i], toFloat)
    {
      assert data[..i + 1][..i] == data[..i];
      strikes, debugLog := ProcessRecord(spot, i, data[i], toFloat, strikes, debugLog);
    }
    assert data[..|data|] == data;

    if strikes == map[] {
      return [], spot, spot, spot, debugLog;
    }
    table := Table(strikes);
    var levels := ExtractLevels(strikes, spot);
    callWall, putWall, zeroGamma := levels.callWall, levels.putWall, levels.zeroGamma;
  }

  /** One iteration of the loop: the checks of record number `i`, in the code's order, each
      ending the iteration when it fails. */
  method ProcessRecord(spot: real, i: nat, entry: Entry, toFloat: Parser, strikes: map<real, real>, debugLog: seq<LogEntry>)
    returns (strikes': map<real, real>, debugLog': seq<LogEntry>)
    ensures strikes' == Apply(strikes, spot, Admit(entry, toFloat))
    ensures debugLog' == debugLog + Lines(i, entry, toFloat)
  {
    strikes', debugLog' := strikes, debugLog;
    var isDebugSample := i < SampleSize;
    var instr := InstrumentName(entry);

    // Check 1: open interest, 0 when the key is missing
    var oi := if entry.openInterest.Some? then entry.openInterest.value else Num(0.0);
    if oi == Num(0.0) {
      if isDebugSample {
        debugLog' := debugLog' + [LogEntry(instr, ZeroOpenInterest)];
      }
      return;
    }

    // Check 2: greeks present and non-empty
    if entry.greeks.None? || |entry.greeks.value| == 0 {
      if isDebugSample {
        debugLog' := debugLog' + [LogEntry(instr, NoGreeks)];
      }
      return;
    }
    var greeks := entry.greeks.value;

    // Check 3: at least four name fields; rejected without a log line
    var parts := Text.Split(instr, '-');
    if |parts| < 4 {
      return;
    }

    // The guarded block: an unparseable strike or a `null` open interest raises
    var strike := toFloat(parts[2]);
    if strike.None? || oi.Null? {
      if isDebugSample {
        debugLog' := debugLog' + [LogEntry(instr, CalcError)];
      }
      return;
    }
    var optType := parts[3];
    var gamma := Gamma(greeks);
    var gexVal := GexValue(gamma, oi.x, spot);
    if strike.value !in strikes' {
      strikes' := strikes'[strike.value := 0.0];
    }
    if optType == "C" {
      strikes' := strikes'[strike.value := strikes'[strike.value] + gexVal];
    } else {
      strikes' := strikes'[strike.value := strikes'[strike.value] - gexVal];
    }
  }

  /** When no record passes the checks the table is empty and all three levels are the spot. */
  lemma NothingAdmitted(spot: real, data: seq<Entry>, toFloat: Parser)
    requires forall i :: 0 <= i < |data| ==> Admit(data[i], toFloat).Rejected?
    ensures Table(Ledger(spot, data, toFloat)) == []
    ensures ExtractLevels(Ledger(spot, data, toFloat), spot) == Levels(spot, spot, spot)
  {
    EmptyLedger(spot, data, toFloat);
  }
}
