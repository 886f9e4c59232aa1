/** The diagnostic log of `process_gex`: why some of the first five records were rejected. */
module DebugLog {
  import opened Records

  /** Only the first five records are sampled for the log. */
  const SampleSize: nat := 5

  /** One log line: the record's instrument name and why it was rejected. */
  datatype LogEntry = LogEntry(name: string, reason: Reason)

  /** A malformed name is rejected without a log line; the other three reasons are logged. */
  predicate Logged(r: Reason)
  {
    r != MalformedName
  }

  /** The log line that record number `i` contributes, if any. */
  predicate Describes(entry: LogEntry, i: nat, e: Entry, toFloat: Parser)
  {
    && i < SampleSize
    && Admit(e, toFloat) == Rejected(entry.reason)
    && Logged(entry.reason)
    && entry.name == InstrumentName(e)
  }

  /** The lines that record number `i` adds to the log: one when it is among the first five
      and rejected for a logged reason, none otherwise. */
  function Lines(i: nat, e: Entry, toFloat: Parser): (r: seq<LogEntry>)
    ensures |r| <= 1
    ensures r != [] ==> i < SampleSize
  {
    var v := Admit(e, toFloat);
    if i < SampleSize && v.Rejected? && Logged(v.reason) then [LogEntry(InstrumentName(e), v.reason)] else []
  }

  /** The log after processing `data` from first record to last. */
  function Log(data: seq<Entry>, toFloat: Parser): seq<LogEntry>
    decreases |data|
  {
    if data == [] then []
    else Log(data[..|data| - 1], toFloat) + Lines(|data| - 1, data[|data| - 1], toFloat)
  }

  /** The log never holds more lines than there are records, nor more than five. */
  lemma {:induction false} LogBounded(data: seq<Entry>, toFloat: Parser)
    ensures |Log(data, toFloat)| <= |data|
    ensures |Log(data, toFloat)| <= SampleSize
    decreases |data|
  {
    if data != [] {
      LogBounded(data[..|data| - 1], toFloat);
    }
  }

  /** Records after the fifth have no effect on the log. */
  lemma LogSeesOnlySample(data: seq<Entry>, toFloat: Parser)
    ensures Log(data, toFloat) == Log(data[..if |data| < SampleSize then |data| else SampleSize], toFloat)
  {
    if |data| < SampleSize {
      assert data[..|data|] == data;
    } else {
      assert data == data[..SampleSize] + data[SampleSize..];
      LogIgnoresLater(data[..SampleSize], data[SampleSize..], toFloat);
    }
  }

  /** Once five records have been seen, further records add nothing to the log. */
  lemma {:induction false} LogIgnoresLater(a: seq<Entry>, b: seq<Entry>, toFloat: Parser)
    requires |a| >= SampleSize
    ensures Log(a + b, toFloat) == Log(a, toFloat)
    decreases |b|
  {
    if b == [] {
      assert a + b == a;
    } else {
      var n := |b| - 1;
      LogIgnoresLater(a, b[..n], toFloat);
      assert a + b == (a + b[..n]) + [b[n]];
      LogAppend(a + b[..n], b[n], toFloat);
      LinesOutsideSample(|a + b[..n]|, b[n], toFloat);
    }
  }

  /** The log of a sequence extended by one record. */
  lemma LogAppend(init: seq<Entry>, e: Entry, toFloat: Parser)
    ensures Log(init + [e], toFloat) == Log(init, toFloat) + Lines(|init|, e, toFloat)
  {
    assert (init + [e])[..|init|] == init;
  }

  /** A record after the fifth adds no line. */
  lemma LinesOutsideSample(i: nat, e: Entry, toFloat: Parser)
    requires i >= SampleSize
    ensures Lines(i, e, toFloat) == []
  {
  }

  /** The log of a sequence is the log of all but its last record, followed by the last record's line. */
  lemma LogSnoc(data: seq<Entry>, toFloat: Parser, entry: LogEntry)
    requires data != []
    ensures var n := |data| - 1;
      entry in Log(data, toFloat) <==> entry in Log(data[..n], toFloat) || Describes(entry, n, data[n], toFloat)
  {
  }

  /** Every line of the log describes one of the first five records. */
  lemma {:induction false} LogLinesSound(data: seq<Entry>, toFloat: Parser, entry: LogEntry)
    requires entry in Log(data, toFloat)
    ensures exists i :: 0 <= i < |data| && Describes(entry, i, data[i], toFloat)
    decreases |data|
  {
    var n := |data| - 1;
    LogSnoc(data, toFloat, entry);
    if !Describes(entry, n, data[n], toFloat) {
      LogLinesSound(data[..n], toFloat, entry);
      var i :| 0 <= i < n && Describes(entry, i, data[..n][i], toFloat);
      assert data[..n][i] == data[i];
    }
  }

  /** Every rejection of one of the first five records, other than a malformed name, has its line in the log. */
  lemma {:induction false} LogLinesComplete(data: seq<Entry>, toFloat: Parser, entry: LogEntry, i: nat)
    requires i < |data| && Describes(entry, i, data[i], toFloat)
    ensures entry in Log(data, toFloat)
    decreases |data|
  {
    var n := |data| - 1;
    LogSnoc(data, toFloat, entry);
    if i == n {
      assert Describes(entry, n, data[n], toFloat);
    } else {
      assert data[..n][i] == data[i];
      LogLinesComplete(data[..n], toFloat, entry, i);
      assert entry in Log(data[..n], toFloat);
    }
  }

  /** A line is in the log exactly when it describes one of the first five records. */
  lemma LogLines(data: seq<Entry>, toFloat: Parser, entry: LogEntry)
    ensures entry in Log(data, toFloat) <==> exists i :: 0 <= i < |data| && Describes(entry, i, data[i], toFloat)
  {
    if entry in Log(data, toFloat) {
      LogLinesSound(data, toFloat, entry);
    }
    if exists i :: 0 <= i < |data| && Describes(entry, i, data[i], toFloat) {
      var i :| 0 <= i < |data| && Describes(entry, i, data[i], toFloat);
      LogLinesComplete(data, toFloat, entry, i);
    }
  }
}
