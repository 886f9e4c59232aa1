/** The strike ledger of `process_gex`: a map from strike to net gamma exposure, built by
    folding the records of the chain in order. */
module StrikeLedger {
  import opened Records

  /** The current value of a strike's bucket, 0 when the bucket does not exist yet
      (`strikes[strike] = {'total_gex': 0}` on first touch). */
  function Bucket(m: map<real, real>, k: real): real
  {
    if k in m then m[k] else 0.0
  }

  /** The effect of one record's admission outcome on the ledger. */
  function Apply(m: map<real, real>, spot: real, v: Admission): (r: map<real, real>)
    ensures r.Keys == m.Keys + (if v.Admitted? then {v.strike} else {})
    ensures forall k :: k in m && !(v.Admitted? && k == v.strike) ==> r[k] == m[k]
  {
    if v.Admitted? then m[v.strike := Bucket(m, v.strike) + Signed(v, spot)] else m
  }

  /** The ledger after processing `data` from first record to last. */
  function Ledger(spot: real, data: seq<Entry>, toFloat: Parser): (r: map<real, real>)
    ensures |r| <= |data|
    decreases |data|
  {
    if data == [] then map[]
    else Apply(Ledger(spot, data[..|data| - 1], toFloat), spot, Admit(data[|data| - 1], toFloat))
  }

  /** The record is admitted and its strike field reads as `k`. */
  predicate AdmittedAt(e: Entry, toFloat: Parser, k: real)
  {
    Admit(e, toFloat).Admitted? && Admit(e, toFloat).strike == k
  }

  /** Some record of `data` is admitted at strike `k`. */
  predicate AdmittedSomewhere(data: seq<Entry>, toFloat: Parser, k: real)
  {
    exists e :: e in data && AdmittedAt(e, toFloat, k)
  }

  /** What one record adds to the bucket of strike `k`. */
  function Contribution(e: Entry, spot: real, toFloat: Parser, k: real): real
  {
    if AdmittedAt(e, toFloat, k) then Signed(Admit(e, toFloat), spot) else 0.0
  }

  /** Reference definition of a bucket: the signed sum of the exposures of the records admitted at `k`. */
  function SignedSum(spot: real, data: seq<Entry>, toFloat: Parser, k: real): real
    decreases |data|
  {
    if data == [] then 0.0
    else SignedSum(spot, data[..|data| - 1], toFloat, k) + Contribution(data[|data| - 1], spot, toFloat, k)
  }

  /** Ledger of a sequence extended by one record. */
  lemma LedgerSnoc(spot: real, data: seq<Entry>, e: Entry, toFloat: Parser)
    ensures Ledger(spot, data + [e], toFloat) == Apply(Ledger(spot, data, toFloat), spot, Admit(e, toFloat))
  {
    assert (data + [e])[..|data|] == data;
  }

  lemma SignedSumSnoc(spot: real, data: seq<Entry>, e: Entry, toFloat: Parser, k: real)
    ensures SignedSum(spot, data + [e], toFloat, k) == SignedSum(spot, data, toFloat, k) + Contribution(e, spot, toFloat, k)
  {
    assert (data + [e])[..|data|] == data;
  }

  /** Every bucket is the signed sum of the exposures of the records admitted at its strike,
      and a bucket exists exactly for the strikes at which some record was admitted. */
  lemma {:induction false} LedgerIsSignedSum(spot: real, data: seq<Entry>, toFloat: Parser, k: real)
    ensures k in Ledger(spot, data, toFloat) <==> AdmittedSomewhere(data, toFloat, k)
    ensures Bucket(Ledger(spot, data, toFloat), k) == SignedSum(spot, data, toFloat, k)
    decreases |data|
  {
    if data != [] {
      var n := |data| - 1;
      var init, last := data[..n], data[n];
      assert data == init + [last];
      LedgerIsSignedSum(spot, init, toFloat, k);
      LedgerSnoc(spot, init, last, toFloat);
      SignedSumSnoc(spot, init, last, toFloat, k);
      assert AdmittedSomewhere(data, toFloat, k) <==> AdmittedSomewhere(init, toFloat, k) || AdmittedAt(last, toFloat, k) by {
        forall e | e in data
          ensures e in init || e == last
        {
        }
        assert last in data;
        forall e | e in init
          ensures e in data
        {
        }
      }
    }
  }

  lemma {:induction false} SignedSumConcat(spot: real, a: seq<Entry>, b: seq<Entry>, toFloat: Parser, k: real)
    ensures SignedSum(spot, a + b, toFloat, k) == SignedSum(spot, a, toFloat, k) + SignedSum(spot, b, toFloat, k)
    decreases |b|
  {
    if b == [] {
      assert a + b == a;
    } else {
      var n := |b| - 1;
      assert a + b == (a + b[..n]) + [b[n]];
      SignedSumConcat(spot, a, b[..n], toFloat, k);
      SignedSumSnoc(spot, a + b[..n], b[n], toFloat, k);
      SignedSumSnoc(spot, b[..n], b[n], toFloat, k);
      assert b == b[..n] + [b[n]];
    }
  }

  /** The signed sum does not depend on the order of the records. */
  lemma {:induction false} SignedSumReorder(spot: real, a: seq<Entry>, b: seq<Entry>, toFloat: Parser, k: real)
    requires multiset(a) == multiset(b)
    ensures SignedSum(spot, a, toFloat, k) == SignedSum(spot, b, toFloat, k)
    decreases |a|
  {
    if a == [] {
      assert |b| == |multiset(b)| == 0;
    } else {
      var n := |a| - 1;
      var x := a[n];
      assert a == a[..n] + [x];
      assert x in multiset(b);
      var j :| 0 <= j < |b| && b[j] == x;
      var rest := b[..j] + b[j + 1..];
      assert b == b[..j] + [x] + b[j + 1..];
      assert multiset(b) == multiset(rest) + multiset{x};
      assert multiset(a) == multiset(a[..n]) + multiset{x};
      assert multiset(a[..n]) == multiset(a) - multiset{x} == multiset(b) - multiset{x} == multiset(rest);
      SignedSumReorder(spot, a[..n], rest, toFloat, k);
      SignedSumSnoc(spot, a[..n], x, toFloat, k);
      SignedSumConcat(spot, b[..j] + [x], b[j + 1..], toFloat, k);
      SignedSumSnoc(spot, b[..j], x, toFloat, k);
      SignedSumConcat(spot, b[..j], b[j + 1..], toFloat, k);
    }
  }

  /** Ledgers agree when they have the same buckets and the same signed sums. */
  lemma LedgersEqual(spot: real, a: seq<Entry>, b: seq<Entry>, toFloat: Parser)
    requires forall k :: AdmittedSomewhere(a, toFloat, k) <==> AdmittedSomewhere(b, toFloat, k)
    requires forall k :: SignedSum(spot, a, toFloat, k) == SignedSum(spot, b, toFloat, k)
    ensures Ledger(spot, a, toFloat) == Ledger(spot, b, toFloat)
  {
    var la, lb := Ledger(spot, a, toFloat), Ledger(spot, b, toFloat);
    forall k
      ensures k in la <==> k in lb
      ensures k in la ==> la[k] == lb[k]
    {
      LedgerIsSignedSum(spot, a, toFloat, k);
      LedgerIsSignedSum(spot, b, toFloat, k);
    }
  }

  /** Reordering the input does not change the ledger. */
  lemma LedgerReorder(spot: real, a: seq<Entry>, b: seq<Entry>, toFloat: Parser)
    requires multiset(a) == multiset(b)
    ensures Ledger(spot, a, toFloat) == Ledger(spot, b, toFloat)
  {
    forall k
      ensures SignedSum(spot, a, toFloat, k) == SignedSum(spot, b, toFloat, k)
    {
      SignedSumReorder(spot, a, b, toFloat, k);
    }
    forall k
      ensures AdmittedSomewhere(a, toFloat, k) <==> AdmittedSomewhere(b, toFloat, k)
    {
      forall e | e in a
        ensures e in b
      {
        assert e in multiset(a);
      }
      forall e | e in b
        ensures e in a
      {
        assert e in multiset(b);
      }
    }
    LedgersEqual(spot, a, b, toFloat);
  }

  /** A record that fails any admission check can be removed from the input without changing
      the ledger. */
  lemma RejectedRecordRemovable(spot: real, a: seq<Entry>, e: Entry, b: seq<Entry>, toFloat: Parser)
    requires Admit(e, toFloat).Rejected?
    ensures Ledger(spot, a + [e] + b, toFloat) == Ledger(spot, a + b, toFloat)
  {
    forall k
      ensures SignedSum(spot, a + [e] + b, toFloat, k) == SignedSum(spot, a + b, toFloat, k)
    {
      SignedSumConcat(spot, a + [e], b, toFloat, k);
      SignedSumSnoc(spot, a, e, toFloat, k);
      SignedSumConcat(spot, a, b, toFloat, k);
    }
    forall k
      ensures AdmittedSomewhere(a + [e] + b, toFloat, k) <==> AdmittedSomewhere(a + b, toFloat, k)
    {
      forall x | x in a + [e] + b && AdmittedAt(x, toFloat, k)
        ensures x in a + b
      {
      }
      forall x | x in a + b
        ensures x in a + [e] + b
      {
      }
    }
    LedgersEqual(spot, a + [e] + b, a + b, toFloat);
  }

  /** A record whose open interest is missing or 0 never touches the ledger: appending it
      leaves the ledger as it was, and removing it from anywhere in the input does too. */
  lemma ZeroOpenInterestSkipped(spot: real, a: seq<Entry>, e: Entry, b: seq<Entry>, toFloat: Parser)
    requires HasZeroOpenInterest(e)
    ensures Ledger(spot, a + [e], toFloat) == Ledger(spot, a, toFloat)
    ensures Ledger(spot, a + [e] + b, toFloat) == Ledger(spot, a + b, toFloat)
  {
    LedgerSnoc(spot, a, e, toFloat);
    RejectedRecordRemovable(spot, a, e, b, toFloat);
  }

  /** Processing one record changes at most the bucket at its own strike. A rejected record
      (falsy greeks, fewer than four name fields, an unparseable strike, ...) changes nothing;
      an admitted one creates its bucket at 0 if needed and then adds `+gex_val` for side `C`
      and `-gex_val` for any other side. */
  lemma OneRecordStep(spot: real, data: seq<Entry>, e: Entry, toFloat: Parser)
    ensures Admit(e, toFloat).Rejected? ==> Ledger(spot, data + [e], toFloat) == Ledger(spot, data, toFloat)
    ensures Admit(e, toFloat).Admitted? ==>
      var v, before, after := Admit(e, toFloat), Ledger(spot, data, toFloat), Ledger(spot, data + [e], toFloat);
      && after.Keys == before.Keys + {v.strike}
      && (forall k :: k in before && k != v.strike ==> after[k] == before[k])
      && after[v.strike] == Bucket(before, v.strike) + (if v.side == "C" then 1.0 else -1.0) * GexValue(v.gamma, v.oi, spot)
  {
    LedgerSnoc(spot, data, e, toFloat);
  }

  /** An admitted record whose greeks carry no usable gamma (absent or `null`) still creates
      its bucket, with nothing added to it. */
  lemma MissingGammaCountsAsZero(spot: real, data: seq<Entry>, e: Entry, toFloat: Parser)
    requires Admit(e, toFloat).Admitted?
    requires "gamma" !in e.greeks.value || e.greeks.value["gamma"] == Null
    ensures var k, before := Admit(e, toFloat).strike, Ledger(spot, data, toFloat);
      Ledger(spot, data + [e], toFloat) == before[k := Bucket(before, k)]
  {
    var v := Admit(e, toFloat);
    assert v.gamma == 0.0;
    assert Signed(v, spot) == 0.0 by {
      assert GexValue(0.0, v.oi, spot) == 0.0;
    }
    LedgerSnoc(spot, data, e, toFloat);
  }

  /** A call and a put at the same strike with equal gamma and open interest cancel: after both,
      the strike's bucket is what it was before (0 if it did not exist). */
  lemma CallPutCancel(spot: real, data: seq<Entry>, call: Entry, put: Entry, toFloat: Parser)
    requires Admit(put, toFloat).Admitted? && AdmittedAt(call, toFloat, Admit(put, toFloat).strike)
    requires Admit(call, toFloat).side == "C" && Admit(put, toFloat).side != "C"
    requires Admit(call, toFloat).gamma == Admit(put, toFloat).gamma && Admit(call, toFloat).oi == Admit(put, toFloat).oi
    ensures var k, before := Admit(call, toFloat).strike, Ledger(spot, data, toFloat);
      Ledger(spot, data + [call, put], toFloat) == before[k := Bucket(before, k)]
  {
    LedgerSnoc(spot, data, call, toFloat);
    LedgerSnoc(spot, data + [call], put, toFloat);
    assert data + [call] + [put] == data + [call, put];
    ApplyCancel(Ledger(spot, data, toFloat), spot, Admit(call, toFloat), Admit(put, toFloat));
  }

  /** Applying a call and then a put with the same strike, gamma and open interest leaves
      only the (possibly new) bucket behind. */
  lemma ApplyCancel(m: map<real, real>, spot: real, vc: Admission, vp: Admission)
    requires vc.Admitted? && vp.Admitted? && vc.strike == vp.strike
    requires vc.side == "C" && vp.side != "C" && vc.gamma == vp.gamma && vc.oi == vp.oi
    ensures Apply(Apply(m, spot, vc), spot, vp) == m[vc.strike := Bucket(m, vc.strike)]
  {
    var g := GexValue(vc.gamma, vc.oi, spot);
    assert Signed(vc, spot) == g;
    assert Signed(vp, spot) == -g;
    BucketCancel(m, vc.strike, g, -g);
  }

  /** Adding an amount to a bucket and then its opposite restores the bucket. */
  lemma BucketCancel(m: map<real, real>, k: real, s: real, t: real)
    requires t == -s
    ensures var mid := m[k := Bucket(m, k) + s]; mid[k := Bucket(mid, k) + t] == m[k := Bucket(m, k)]
  {
  }

  /** The ledger is empty exactly when no record is admitted. */
  lemma EmptyLedger(spot: real, data: seq<Entry>, toFloat: Parser)
    ensures Ledger(spot, data, toFloat) == map[] <==> forall i :: 0 <= i < |data| ==> Admit(data[i], toFloat).Rejected?
  {
    var m := Ledger(spot, data, toFloat);
    if i :| 0 <= i < |data| && Admit(data[i], toFloat).Admitted? {
      var k := Admit(data[i], toFloat).strike;
      assert data[i] in data && AdmittedAt(data[i], toFloat, k);
      LedgerIsSignedSum(spot, data, toFloat, k);
      assert k in m;
    } else {
      forall k | k in m
        ensures false
      {
        LedgerIsSignedSum(spot, data, toFloat, k);
      }
      assert m == map[];
    }
  }
}
