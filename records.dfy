/** One option-chain record as the venue delivers it, the admission checks of `process_gex`
    and the gamma-exposure value of an admitted record. */
module Records {
  import opened Wrappers
  import Text

  /** A JSON scalar that is either `null` or a number. */
  datatype Value = Null | Num(x: real)

  /** A record of the option chain. `None` stands for a key that the record does not carry;
      for `greeks` it also stands for an explicit `null`, which the code treats the same way. */
  datatype Entry = Entry(
    instrumentName: Option<string>,
    openInterest: Option<Value>,
    greeks: Option<map<string, Value>>)

  /** Why a record was turned away, in the order the checks run. */
  datatype Reason = ZeroOpenInterest | NoGreeks | MalformedName | CalcError

  /** The outcome of the admission checks: the reason of the first failing check, or the
      fields the strike ledger needs. */
  datatype Admission =
    | Rejected(reason: Reason)
    | Admitted(strike: real, side: string, gamma: real, oi: real)

  /** Python's `float(...)` on a name field: `None` when it raises. */
  type Parser = string -> Option<real>

  /** `entry.get('instrument_name', 'UNKNOWN')`. */
  function InstrumentName(e: Entry): string
  {
    if e.instrumentName.Some? then e.instrumentName.value else "UNKNOWN"
  }

  /** `entry.get('open_interest', 0) == 0`: a missing key reads as 0; `null` is not equal to 0. */
  predicate HasZeroOpenInterest(e: Entry)
  {
    e.openInterest == None || e.openInterest == Some(Num(0.0))
  }

  /** `greeks` is truthy: present, not `null` and not an empty dictionary. */
  predicate HasGreeks(e: Entry)
  {
    e.greeks.Some? && |e.greeks.value| > 0
  }

  /** `instr.split('-')`. */
  function NameFields(e: Entry): seq<string>
  {
    Text.Split(InstrumentName(e), '-')
  }

  /** `greeks.get('gamma', 0) or 0`: a missing key, `null` and 0 all give 0. */
  function Gamma(g: map<string, Value>): (r: real)
    ensures "gamma" in g && g["gamma"].Num? ==> r == g["gamma"].x
    ensures r != 0.0 ==> "gamma" in g && g["gamma"] == Num(r)
  {
    if "gamma" in g && g["gamma"].Num? then g["gamma"].x else 0.0
  }

  /** The admission checks of one record. The code's `try` block turns two failures into
      `CalcError`: a strike field that does not parse, and an open interest of `null`
      (which passes the `oi == 0` test and then raises in the multiplication). */
  function Admit(e: Entry, toFloat: Parser): (v: Admission)
    ensures v == Rejected(ZeroOpenInterest) <==> HasZeroOpenInterest(e)
    ensures v == Rejected(NoGreeks) <==> !HasZeroOpenInterest(e) && !HasGreeks(e)
    ensures v == Rejected(MalformedName) <==> !HasZeroOpenInterest(e) && HasGreeks(e) && |NameFields(e)| < 4
    ensures v.Admitted? <==>
      && !HasZeroOpenInterest(e) && HasGreeks(e) && |NameFields(e)| >= 4
      && toFloat(NameFields(e)[2]).Some? && e.openInterest.value.Num?
    ensures v.Admitted? ==>
      && v.strike == toFloat(NameFields(e)[2]).value
      && v.side == NameFields(e)[3]
      && v.oi == e.openInterest.value.x && v.oi != 0.0
      && v.gamma == Gamma(e.greeks.value)
  {
    if HasZeroOpenInterest(e) then Rejected(ZeroOpenInterest)
    else if !HasGreeks(e) then Rejected(NoGreeks)
    else
      var parts := NameFields(e);
      if |parts| < 4 then Rejected(MalformedName)
      else
        var strike := toFloat(parts[2]);
        if strike.None? || e.openInterest.value.Null? then Rejected(CalcError)
        else Admitted(strike.value, parts[3], Gamma(e.greeks.value), e.openInterest.value.x)
  }

  /** `gamma * oi * spot ** 2 / 100 / 1_000_000`: dollar gamma per 1% move, in millions. */
  function GexValue(gamma: real, oi: real, spot: real): (r: real)
    ensures gamma == 0.0 || oi == 0.0 || spot == 0.0 ==> r == 0.0
  {
    gamma * oi * (spot * spot) / 100.0 / 1000000.0
  }

  /** What an admitted record adds to its strike's bucket: `+gex_val` for side `C`, `-gex_val` for any other side. */
  function Signed(v: Admission, spot: real): real
    requires v.Admitted?
  {
    if v.side == "C" then GexValue(v.gamma, v.oi, spot) else -GexValue(v.gamma, v.oi, spot)
  }

  /** A name in the venue's canonical shape `<underlying>-<expiry>-<strike>-<side>` (possibly
      with further fields) passes the name check and is read with the third field as strike
      and the fourth as side. */
  lemma CanonicalNameFields(e: Entry, fields: seq<string>, toFloat: Parser)
    requires |fields| >= 4
    requires forall i :: 0 <= i < |fields| ==> '-' !in fields[i]
    requires e.instrumentName == Some(Text.Join(fields, '-'))
    ensures NameFields(e) == fields
    ensures Admit(e, toFloat) != Rejected(MalformedName)
  {
    Text.SplitJoin(fields, '-');
  }
}
