# GEX debugger: `process_gex` in Dafny

This project models `process_gex` in `app.py` of the GEX debugger. The function takes a spot price and the option chain of one underlying, as the venue delivers it. It computes the net dealer gamma exposure (GEX) per strike, in millions of dollars per 1% move. It then reads three levels off that ledger:

- the **Call Wall**: the strike with the largest net exposure;
- the **Put Wall**: the strike with the most negative net exposure;
- **Zero Gamma**: the strike with the net exposure closest to 0 strictly inside `(0.85·spot, 1.15·spot)`.

It also keeps a short diagnostic log of why records among the first five of the chain were rejected.

## Modules

- `wrappers.dfy` (`Wrappers`): `Option`.
- `text.dfy` (`Text`): `str.split` on `-` and its inverse, `join`.
- `records.dfy` (`Records`): the record datatype and the admission checks of one record. `Admit` gives either the reason for rejection or the strike, side, gamma and open interest of an admitted record. It also defines the exposure formula `gamma·oi·spot²/100/10⁶`.
- `ledger.dfy` (`StrikeLedger`): the strike ledger as a left fold of the records (`Ledger`), and a reference definition of each bucket as a signed sum (`SignedSum`). The lemmas prove the properties of the ledger: order independence, skipped records, a one-record step and call/put cancellation.
- `debuglog.dfy` (`DebugLog`): the diagnostic log as a left fold, and what it can contain.
- `levels.dfy` (`LevelExtraction`): the table sorted by strike, first-occurrence argmax and argmin, the band filter and `ExtractLevels`. It also gives independent reference definitions of the three levels and proves that, for a non-empty ledger, `ExtractLevels` meets them and is the only result that does. An empty ledger has no walls under those definitions, and `ExtractLevels` then gives the spot for all three levels.
- `process.dfy` (`Gex`): the imperative loop of `process_gex`. It is a method whose loop invariant ties the mutated `strikes` map and the log to the two folds. The method's result is then tied to the level functions.
- `scenarios.dfy` (`Scenarios`): worked examples: a call and a put that cancel, a single-strike ledger, and two strikes around the spot.

## Modelling decisions

- **Numbers** are `real`. Sums and products are exact; there is no IEEE-754 rounding.
- **JSON values**: a JSON value that can be `null` is `Value = Null | Num(x)`.
- **Absent keys**: a key the record does not carry is `None`.
  - `open_interest` defaults to 0.
  - A missing or `null` `greeks` is `None`.
  - An empty greeks dictionary is falsy, like `None`.
- **Missing name**: a missing `instrument_name` reads as `"UNKNOWN"`. That is one field, so the name check rejects the record.
- **`float(parts[2])`** is the parameter `toFloat: string -> Option<real>`. `None` stands for the `ValueError` that is caught in the `try` block.
- **`null` open interest**: a `null` open interest is not equal to 0, so it passes the first check. The multiplication then raises `TypeError` inside the `try` block. Both failures inside the `try` end as the rejection reason `CalcError`, with a log line when the record is among the first five, and the ledger is unchanged.
- **Log lines** are `LogEntry(name, reason)` and not the formatted French strings.
- **`pandas` calls**: the `DataFrame` is the strike-sorted sequence of `Row(strike, totalGex)`. `idxmax`/`idxmin` return the first occurrence in that order, which is the lowest strike on ties.
- **Code as written**: the code has no zero-gamma interpolation, no expiry weighting and no DTE filter. The model follows the code. Zero Gamma is therefore the strike of smallest absolute exposure, not an interpolated crossing: with strikes 59000 at −5 and 60000 at +3 around a spot of 60000, the result is 60000, not 59625 (`Scenarios.NoInterpolation`). The band is the open interval that the code's strict comparisons give.

## Model

| member | source | states |
|---|---|---|
| Text.Split | app.py:79 | `instr.split('-')` has exactly one more field than the name has dashes |
| Text.SplitPiecesPlain | app.py:79 | no field produced by the split contains a dash |
| Text.JoinSplit | app.py:79 | joining the fields with `-` gives the instrument name back |
| Text.SplitJoin | app.py:79 | splitting a `-`-join of dash-free fields gives exactly those fields back |
| Records.InstrumentName | app.py:64 | the record's `instrument_name`, or `"UNKNOWN"` when the key is missing |
| Records.HasZeroOpenInterest | app.py:67-68 | the first check: `open_interest` is missing (default 0) or equal to 0; a `null` open interest is not equal to 0 |
| Records.HasGreeks | app.py:73-74 | the second check: `greeks` is truthy, i.e. present, not `null` and not an empty dictionary |
| Records.Gamma | app.py:86 | a numeric `gamma` of value x is used as x; the result is non-zero only when the greeks carry such a numeric `gamma`, so missing and `null` count as 0 |
| Records.Admit | app.py:64-101 | the four checks in the code's order, with their exact conditions: (1) missing or 0 open interest gives ZeroOpenInterest; (2) otherwise, falsy greeks give NoGreeks; (3) otherwise, fewer than 4 name fields give MalformedName; (4) otherwise the record is admitted exactly when the strike field parses and the open interest is numeric. An admitted record carries `float(parts[2])`, `parts[3]`, the gamma and a non-zero open interest |
| Records.GexValue | app.py:89 | `gamma·oi·spot²/100/10⁶`, which is 0 when the gamma, the open interest or the spot is 0 |
| Records.Signed | app.py:94-97 | what an admitted record adds to its bucket: `+gex_val` when the side field is exactly `C`, `-gex_val` for any other side |
| Records.CanonicalNameFields | app.py:79-85 | a name of four or more dash-free fields joined by `-` passes the name check, with its third field as strike field and its fourth as side |
| StrikeLedger.Apply | app.py:91-97 | the effect of one admission outcome on the ledger: a rejection changes nothing; an admission adds its strike to the keys (creating the bucket at 0) and changes no other bucket |
| StrikeLedger.Ledger | app.py:57-101 | the `strikes` dictionary after the loop, as a left fold of `Apply` over the records in order; it never has more buckets than there are records |
| StrikeLedger.LedgerIsSignedSum | app.py:60-101 | a bucket exists exactly for the strikes at which some record was admitted, and each bucket equals the signed sum over the admitted records at that strike (`+gex_val` for side `C`, `-gex_val` otherwise) |
| StrikeLedger.SignedSumReorder | app.py:60-101 | the signed sum at a strike depends only on the multiset of records |
| StrikeLedger.LedgerReorder | app.py:60-101 | any permutation of the input gives the same ledger |
| StrikeLedger.RejectedRecordRemovable | app.py:66-101 | removing a record that fails any check, from any position, leaves the ledger unchanged |
| StrikeLedger.ZeroOpenInterestSkipped | app.py:66-70 | a record with missing or 0 open interest neither creates nor changes a bucket, and removing it from anywhere leaves the ledger unchanged |
| StrikeLedger.OneRecordStep | app.py:86-97 | a rejected record leaves the ledger as it was. An admitted record adds its strike to the keys and leaves every other bucket unchanged. Its own bucket, created at 0 if absent, gains `+gex_val` for side `C` and `-gex_val` for any other side |
| StrikeLedger.MissingGammaCountsAsZero | app.py:86-92 | an admitted record whose gamma is missing or `null` still creates its bucket but adds nothing to it |
| StrikeLedger.CallPutCancel | app.py:89-97 | a call, then a put, at the same strike with equal gamma and open interest bring the bucket back to its earlier value (0 if it was new) |
| StrikeLedger.EmptyLedger | app.py:104-105 | the ledger is empty if and only if every record is rejected |
| DebugLog.Lines | app.py:62-101 | the lines one record adds to the log: at most one, and only for an index below 5 and a rejection other than a malformed name |
| DebugLog.Log | app.py:58-101 | the `debug_log` list after the loop, as a left fold of `Lines` over the records in order |
| DebugLog.LogBounded | app.py:60-62 | the log never has more lines than records, nor more than five |
| DebugLog.LogSeesOnlySample | app.py:62 | the log depends only on the first five records |
| DebugLog.LogIgnoresLater | app.py:62 | once the first five records are processed, further records add no line |
| DebugLog.LogLinesSound | app.py:66-101 | every log line names a record with index below 5, rejected for a reason other than a malformed name |
| DebugLog.LogLinesComplete | app.py:66-101 | every such rejection among the first five records has its line in the log |
| DebugLog.LogLines | app.py:66-101 | a line is in the log if and only if it describes such a rejection |
| LevelExtraction.Sorted | app.py:109 | the strikes of the ledger, each exactly once, in strictly increasing order |
| LevelExtraction.Table | app.py:107-109 | the `DataFrame`: one row per ledger key, with that key's total, sorted strictly by strike |
| LevelExtraction.FirstMaxIndex | app.py:112 | `idxmax`: an index of a maximal value with every earlier value strictly smaller, i.e. the first maximum |
| LevelExtraction.FirstMinIndex | app.py:113 | `idxmin`: an index of a minimal value with every earlier value strictly larger, i.e. the first minimum |
| LevelExtraction.Band | app.py:115 | `subset`: the rows of the table, in order, whose strike is strictly between `0.85·spot` and `1.15·spot` |
| LevelExtraction.BandMembers | app.py:115 | a row survives the band filter if and only if its strike is strictly between `0.85·spot` and `1.15·spot` |
| LevelExtraction.BandSorted | app.py:115 | the band filter keeps the table sorted |
| LevelExtraction.BandTabulates | app.py:115 | the filtered table is the table of the ledger restricted to the band |
| LevelExtraction.FirstMaxRowIsCallWall | app.py:112 | the first maximum of a sorted table is the lowest strike of maximal total |
| LevelExtraction.FirstMinRowIsPutWall | app.py:113 | the first minimum of a sorted table is the lowest strike of minimal total |
| LevelExtraction.FirstMinAbsRowIsFlattest | app.py:116 | the first minimum of the absolute totals is the lowest strike of smallest absolute total |
| LevelExtraction.ExtractLevels | app.py:104-105 | an empty ledger gives `(spot, spot, spot)` |
| LevelExtraction.CallWallIsHighest | app.py:107-112 | the Call Wall is a key of the ledger with maximal total, the lowest such key on ties |
| LevelExtraction.PutWallIsLowest | app.py:107-113 | the Put Wall is a key of the ledger with minimal total, the lowest such key on ties |
| LevelExtraction.ZeroGammaIsFlattest | app.py:115-116 | Zero Gamma is the spot when no key lies strictly inside the band. Otherwise it is an in-band key of minimal absolute total, the lowest on ties |
| LevelExtraction.PutWallBelowCallWall | app.py:112-113 | the Put Wall's total never exceeds the Call Wall's total |
| LevelExtraction.LevelsCharacterised | app.py:104-116 | for a non-empty ledger, each extracted level equals a strike if and only if that strike meets the reference definition, so each level is unique |
| Gex.ProcessRecord | app.py:61-101 | one loop iteration: the mutated `strikes` map becomes the ledger step of the record's admission outcome, and the log gains exactly that record's line, if any |
| Gex.ProcessGex | app.py:56-118 | the loop's `strikes` map and log are the folds `Ledger` and `Log`. The returned table is the sorted table of the ledger, and the levels are `ExtractLevels` of it, spot included for an empty ledger |
| Gex.NothingAdmitted | app.py:104-105 | when no record passes the checks, the table is empty and the three levels are all the spot |
| Scenarios.QuoteAdmitted | app.py:64-86 | a record with a canonical name, a parseable strike field and non-zero open interest is admitted with that strike, side, gamma and open interest |
| Scenarios.CallAndPutCancel | app.py:79-97 | a call and a put that differ only in their side field leave exactly one bucket, at their strike, holding 0 |
| Scenarios.SingleStrike | app.py:112-116 | with a single strike, that strike is both walls, and it is Zero Gamma when inside the band (the spot otherwise) |
| Scenarios.TwoStrikeReference | app.py:112-116 | for strikes 59000 at −5 and 60000 at +3, with the spot at 60000, the reference definitions hold for 60000, 59000 and 60000 |
| Scenarios.NoInterpolation | app.py:115-116 | for those two strikes, the extracted levels are exactly Call Wall 60000, Put Wall 59000 and Zero Gamma 60000 |

## Left out

- `get_deribit_data` (app.py:33-54) is not part of this model. It does HTTP requests to the venue, JSON decoding and error display, which are network I/O. `process_gex` receives its result as parameters.
- The Streamlit page, the button, the metrics, the expanders and the Altair chart are not part of this model. They are user interface.
- The generated script snippet is not part of this model. It is string formatting of the levels.
- Floating-point rounding is not modelled: sums and products are exact reals.
- NaN and infinite strikes or values are not modelled, and neither are the effects of NaN on `==`, `in` and `idxmax`.
- `float()` is abstracted as the parser parameter `toFloat`. The model does not fix which strings it accepts.
- A record whose `instrument_name` is an explicit `null` is not modelled: the record datatype has no such case. In Python such a record with missing or 0 open interest, or with falsy greeks, is skipped, with a log line under the name `None` when the record is among the first five (app.py:67-76). One that passes both checks reaches `instr.split('-')` (app.py:79), which raises outside the `try` block and aborts the whole call.
- JSON values other than numbers and `null` are not modelled (strings, booleans, nested objects in `open_interest` or `gamma`), and neither are greeks that are not a dictionary. In Python, `False == 0` and string arithmetic would behave differently.
- The text of caught exceptions and the French wording of the log lines are not modelled. A line is modelled as the instrument name and the rejection reason.
- ZeroOpenInterestSkipped and RejectedRecordRemovable speak about the ledger and hence about the table and the levels, but not about the log. Removing a rejected record among the first five shifts the indices of later records, so it can change the diagnostic log.
- Expiry weighting, DTE filters, quarterly warnings and zero-gamma interpolation are not modelled, because `process_gex` does none of them.
