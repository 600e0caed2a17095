/**
 * Per-minute samples of cumulative counters, trimmed to what an hour's increase needs, against the history
 * that keeps them all. Times are milliseconds.
 */
module CounterWindows {
  import opened Options

  const MINUTE_MS := 60_000
  const HOUR_MS := 3_600_000

  type Key = string

  datatype Sample = Sample(at: int, value: int)

  function Minute(at: int): int {
    at / MINUTE_MS
  }

  /** One more sample; the last of a minute replaces the others. */
  function Extended(series: seq<Sample>, at: int, value: int): (longer: seq<Sample>)
    ensures longer != [] && longer[|longer| - 1] == Sample(at, value)
  {
    if series != [] && Minute(series[|series| - 1].at) == Minute(at) then series[..|series| - 1] + [Sample(at, value)]
    else series + [Sample(at, value)]
  }

  /** Keeps one sample older than an hour, and nothing older. */
  function Trimmed(series: seq<Sample>, at: int): (kept: seq<Sample>)
    ensures series != [] ==> kept != [] && kept[|kept| - 1] == series[|series| - 1]
  {
    if |series| > 1 && series[1].at <= at - HOUR_MS then Trimmed(series[1..], at) else series
  }

  /** The increase over the last hour, from a series that begins with the baseline. */
  function Increase(series: seq<Sample>, at: int): int {
    if series == [] then 0 else
    var baseline := if series[0].at <= at - HOUR_MS then series[0].value else 0;
    NotNegative(series[|series| - 1].value - baseline)
  }

  function NotNegative(x: int): int {
    if x < 0 then 0 else x
  }

  // ------------------------------------------------------------------------------- the whole history

  /** The true baseline of a read: of the whole history, the last sample not younger than an hour then. */
  ghost function Newest(full: seq<Sample>, at: int): Option<Sample>
    decreases |full|
  {
    if full == [] then None else
    if full[|full| - 1].at <= at - HOUR_MS then Some(full[|full| - 1]) else Newest(full[..|full| - 1], at)
  }

  /** The increase over the last hour: the latest sample less the newest one at least an hour old, or less zero. */
  ghost function TrueIncrease(full: seq<Sample>, at: int): int {
    if full == [] then 0 else
    NotNegative(full[|full| - 1].value - if Newest(full, at).Some? then Newest(full, at).value.value else 0)
  }

  /** One sample a minute, in order. */
  ghost predicate PerMinute(full: seq<Sample>) {
    forall i, j | 0 <= i < j < |full| :: Minute(full[i].at) < Minute(full[j].at)
  }

  lemma PerMinuteIsOrdered(full: seq<Sample>, i: nat, j: nat)
    requires PerMinute(full) && i <= j < |full|
    ensures full[i].at <= full[j].at
  {
    if i < j {
      assert Minute(full[i].at) < Minute(full[j].at);
    }
  }

  lemma ExtendedIsPerMinute(full: seq<Sample>, at: int, value: int)
    requires PerMinute(full) && (full != [] ==> full[|full| - 1].at <= at)
    ensures PerMinute(Extended(full, at, value))
  {
    if full != [] {
      var last := full[|full| - 1].at;
      assert Minute(last) <= Minute(at);
    }
  }

  /** The other minutes keep their samples, and this one has the new sample alone. */
  ghost predicate Recorded(full: seq<Sample>, at: int, value: int, longer: seq<Sample>) {
    && Sample(at, value) in longer
    && forall s: Sample {:trigger s in longer} ::
         s in longer <==> if at / 60_000 == s.at / 60_000 then s == Sample(at, value) else s in full
  }

  lemma ExtendedRecords(full: seq<Sample>, at: int, value: int)
    requires PerMinute(full) && (full != [] ==> full[|full| - 1].at <= at)
    ensures Recorded(full, at, value, Extended(full, at, value))
  {
    var longer, n := Extended(full, at, value), |full| - 1;
    assert longer[|longer| - 1] == Sample(at, value);
    forall s: Sample
      ensures s in longer <==> if Minute(s.at) == Minute(at) then s == Sample(at, value) else s in full
    {
      if s in full {
        var i :| 0 <= i < |full| && full[i] == s;
        assert i < n ==> Minute(full[i].at) < Minute(full[n].at) <= Minute(at) && longer[i] == s;
      }
    }
  }

  /** Where the series kept at `at` begins in the history. */
  ghost function Kept(full: seq<Sample>, at: int): (i: nat)
    ensures full != [] ==> i < |full|
    ensures i <= |full| && Trimmed(full, at) == full[i..]
    ensures i > 0 ==> full[i].at <= at - HOUR_MS
    ensures i + 1 < |full| ==> full[i + 1].at > at - HOUR_MS
  {
    if |full| > 1 && full[1].at <= at - HOUR_MS then
      var rest := Kept(full[1..], at);
      assert full[1..][rest..] == full[rest + 1..];
      rest + 1
    else 0
  }

  lemma {:induction false} NewestIsAt(full: seq<Sample>, at: int, i: nat)
    requires i < |full| && full[i].at <= at - HOUR_MS && forall j | i < j < |full| :: full[j].at > at - HOUR_MS
    ensures Newest(full, at) == Some(full[i])
    decreases |full|
  {
    if i < |full| - 1 {
      NewestIsAt(full[..|full| - 1], at, i);
    }
  }

  lemma {:induction false} NoneIsOld(full: seq<Sample>, at: int)
    requires forall j | 0 <= j < |full| :: full[j].at > at - HOUR_MS
    ensures Newest(full, at) == None
    decreases |full|
  {
    if full != [] {
      NoneIsOld(full[..|full| - 1], at);
    }
  }

  /** Whether a series still gives the right baseline when it is read at `at`. */
  predicate Fresh(series: seq<Sample>, at: int) {
    |series| > 1 ==> series[1].at > at - HOUR_MS
  }

  /**
   * A series trimmed at `trimmed` and read at `at`, then or later, begins with the right baseline exactly while
   * it is fresh, and is always fresh at the moment of its last record.
   */
  lemma ReadIsExact(full: seq<Sample>, trimmed: int, at: int)
    requires PerMinute(full) && full != [] && trimmed <= at
    ensures var series := Trimmed(full, trimmed);
            && (Fresh(series, at) ==> Increase(series, at) == TrueIncrease(full, at))
            && (Fresh(series, at)
                <==> Newest(full, at) == if series[0].at <= at - HOUR_MS then Some(series[0]) else None)
            && Fresh(series, trimmed)
  {
    var series, i := Trimmed(full, trimmed), Kept(full, trimmed);
    assert series == full[i..] && series[0] == full[i];
    if Fresh(series, at) {
      forall j | i < j < |full| ensures full[j].at > at - HOUR_MS {
        assert series[1] == full[i + 1];
        PerMinuteIsOrdered(full, i + 1, j);
      }
      if full[i].at <= at - HOUR_MS {
        NewestIsAt(full, at, i);
      } else {
        NoneIsOld(full, at);
      }
    } else {
      NewerIsOld(full, at, i + 1);
      assert series[1] == full[i + 1];
      assert Minute(full[i].at) < Minute(full[i + 1].at);
    }
  }

  /** When some sample is old enough, the newest such is no older. */
  lemma {:induction false} NewerIsOld(full: seq<Sample>, at: int, i: nat)
    requires PerMinute(full) && i < |full| && full[i].at <= at - HOUR_MS
    ensures Newest(full, at).Some? && Newest(full, at).value.at >= full[i].at
    decreases |full|
  {
    var n := |full| - 1;
    if full[n].at <= at - HOUR_MS {
      PerMinuteIsOrdered(full, i, n);
    } else {
      NewerIsOld(full[..n], at, i);
    }
  }

  /** A part of the history that begins with a sample old enough to be a baseline holds the true one. */
  lemma {:induction false} NewestInSeries(full: seq<Sample>, at: int, i: nat)
    requires i < |full| && full[i].at <= at - HOUR_MS
    ensures Newest(full, at) == Newest(full[i..], at) && Newest(full, at).Some?
    decreases |full|
  {
    var n := |full| - 1;
    if full[n].at > at - HOUR_MS {
      NewestInSeries(full[..n], at, i);
      assert full[i..][..n - i] == full[..n][i..];
    }
  }

  /**
   * A read is right while the series is fresh. Later it is right if the counter stood still from the first
   * sample to the newest one at least an hour old, or has fallen below both, so that either gives no increase.
   */
  ghost predicate StillRight(series: seq<Sample>, at: int)
    requires series != []
  {
    Fresh(series, at) || (
      var first, newest, last := series[0].value, Newest(series, at), series[|series| - 1].value;
      newest.Some? && (newest.value.value == first || (last <= first && last <= newest.value.value)))
  }

  /** The increase a series gives is the true one exactly then. */
  lemma IncreaseIsExact(full: seq<Sample>, trimmed: int, at: int)
    requires PerMinute(full) && full != [] && trimmed <= at
    ensures var series := Trimmed(full, trimmed);
            Increase(series, at) == TrueIncrease(full, at) <==> StillRight(series, at)
  {
    var series, i := Trimmed(full, trimmed), Kept(full, trimmed);
    ReadIsExact(full, trimmed, at);
    if !Fresh(series, at) {
      assert series[1] == full[i + 1];
      PerMinuteIsOrdered(full, i, i + 1);
      NewestInSeries(full, at, i);
    }
  }

  ghost predicate Rising(full: seq<Sample>) {
    forall i, j | 0 <= i <= j < |full| :: full[i].value <= full[j].value
  }

  lemma {:induction false} NewestIsThere(full: seq<Sample>, at: int)
    ensures Newest(full, at).Some? ==> Newest(full, at).value in full
    decreases |full|
  {
    if full != [] && full[|full| - 1].at > at - HOUR_MS {
      NewestIsThere(full[..|full| - 1], at);
    }
  }

  lemma RisingStandsStill(series: seq<Sample>, at: int)
    requires series != [] && Rising(series)
    ensures StillRight(series, at)
       <==> Fresh(series, at) || (Newest(series, at).Some? && Newest(series, at).value.value == series[0].value)
  {
    NewestIsThere(series, at);
  }

  lemma RisingPart(full: seq<Sample>, i: nat)
    requires Rising(full) && i <= |full|
    ensures Rising(full[i..])
  {
    var part := full[i..];
    forall j, k | 0 <= j <= k < |part| ensures part[j].value <= part[k].value {
      assert part[j] == full[i + j] && part[k] == full[i + k];
    }
  }

  /** Of a counter that does not fall: while the series is fresh, or while it stood still until an hour ago. */
  lemma RisingIncreaseIsExact(full: seq<Sample>, trimmed: int, at: int)
    requires PerMinute(full) && full != [] && trimmed <= at && Rising(full)
    ensures var series := Trimmed(full, trimmed);
            Increase(series, at) == TrueIncrease(full, at)
            <==> Fresh(series, at) || (Newest(series, at).Some? && Newest(series, at).value.value == series[0].value)
  {
    IncreaseIsExact(full, trimmed, at);
    RisingPart(full, Kept(full, trimmed));
    RisingStandsStill(Trimmed(full, trimmed), at);
  }

  /** Samples of 5 and then 9, read an hour after the second: the increase is 0, and the series gives 4. */
  lemma StaleReadExample()
    ensures var full, at := [Sample(0, 5), Sample(MINUTE_MS, 9)], 3_700_000;
            && PerMinute(full) && Rising(full) && Trimmed(full, MINUTE_MS) == full
            && Increase(full, at) == 4 && TrueIncrease(full, at) == 0
  {
  }

  lemma ExtendedRest(full: seq<Sample>, at: int, value: int)
    requires |full| > 1
    ensures Extended(full, at, value) == [full[0]] + Extended(full[1..], at, value)
  {
    assert full[..|full| - 1] == [full[0]] + full[1..][..|full| - 2];
  }

  /** Trimming first and recording then keeps what recording in the whole history and trimming keeps. */
  lemma {:induction false} RecordKeeps(full: seq<Sample>, at: int, value: int)
    requires PerMinute(full) && full != [] && full[|full| - 1].at <= at
    ensures Trimmed(Extended(Trimmed(full, full[|full| - 1].at), at, value), at)
            == Trimmed(Extended(full, at, value), at)
    decreases |full|
  {
    var last := full[|full| - 1].at;
    if |full| > 1 && full[1].at <= last - HOUR_MS {
      var rest := full[1..];
      RecordKeeps(rest, at, value);
      var more := Extended(full, at, value);
      ExtendedRest(full, at, value);
      assert more[1..] == Extended(rest, at, value) && more[1] == full[1];
    }
  }

  lemma RecordIsExact(full: seq<Sample>, series: seq<Sample>, at: int, value: int)
    requires PerMinute(full) && (full != [] ==> LastAt(full) <= at)
    requires series == Trimmed(full, LastAt(full))
    ensures PerMinute(Extended(full, at, value)) && LastAt(Extended(full, at, value)) == at
    ensures Trimmed(Extended(series, at, value), at) == Trimmed(Extended(full, at, value), at)
  {
    ExtendedIsPerMinute(full, at, value);
    if full != [] {
      RecordKeeps(full, at, value);
    }
  }

  /** A series never holds more than a baseline and the samples of 61 minutes. */
  lemma SeriesIsBounded(full: seq<Sample>)
    requires PerMinute(full) && full != []
    ensures |Trimmed(full, full[|full| - 1].at)| <= 62
  {
    var n := |full| - 1;
    var at := full[n].at;
    var i := Kept(full, at);
    if i + 1 < |full| {
      MinutesAdvance(full, i + 1, n);
      assert Minute(full[i + 1].at) >= Minute(at) - 60;
    }
  }

  lemma {:induction false} MinutesAdvance(full: seq<Sample>, i: nat, j: nat)
    requires PerMinute(full) && i <= j < |full|
    ensures Minute(full[j].at) >= Minute(full[i].at) + (j - i)
    decreases j - i
  {
    if i < j {
      MinutesAdvance(full, i, j - 1);
      assert Minute(full[j - 1].at) < Minute(full[j].at);
    }
  }

  // ------------------------------------------------------------------------------------- the windows

  /** The history of one key, and the series kept of it. */
  ghost predicate Exact(series: seq<Sample>, full: seq<Sample>) {
    full != [] && PerMinute(full) && series == Trimmed(full, LastAt(full))
  }

  ghost predicate AllExact(samples: map<Key, seq<Sample>>, history: map<Key, seq<Sample>>) {
    samples.Keys == history.Keys && forall key | key in history :: Exact(samples[key], history[key])
  }

  lemma OneStored(samples: map<Key, seq<Sample>>, history: map<Key, seq<Sample>>, key: Key, series: seq<Sample>,
                  full: seq<Sample>)
    requires AllExact(samples, history) && Exact(series, full)
    ensures AllExact(samples[key := series], history[key := full])
  {
  }

  /** Drops what is older than the baseline. */
  method Trim(series: seq<Sample>, at: int) returns (kept: seq<Sample>)
    ensures kept == Trimmed(series, at)
  {
    kept := series;
    while |kept| > 1 && kept[1].at <= at - HOUR_MS
      invariant Trimmed(kept, at) == Trimmed(series, at)
    {
      kept := kept[1..];
    }
  }

  class Windows {
    var samples: map<Key, seq<Sample>>
    /** Every minute's last sample, ever. */
    ghost var history: map<Key, seq<Sample>>

    ghost predicate Valid()
      reads this
    {
      AllExact(samples, history)
    }

    constructor ()
      ensures Valid() && samples == map[]
    {
      samples, history := map[], map[];
    }

    method Record(key: Key, at: int, value: int)
      requires Valid() && (key in samples ==> LastAt(samples[key]) <= at)
      modifies this
      ensures Valid()
      ensures key in history && history == old(history)[key := history[key]]
      ensures Recorded(if key in old(history) then old(history)[key] else [], at, value, history[key])
    {
      ghost var full := if key in history then history[key] else [];
      var series := if key in samples then samples[key] else [];
      RecordIsExact(full, series, at, value);
      ExtendedRecords(full, at, value);
      if series != [] && Minute(series[|series| - 1].at) == Minute(at) {
        series := series[..|series| - 1] + [Sample(at, value)];
      } else {
        series := series + [Sample(at, value)];
      }
      series := Trim(series, at);
      assert series == Trimmed(Extended(full, at, value), at);
      OneStored(samples, history, key, series, Extended(full, at, value));
      samples := samples[key := series];
      history := history[key := Extended(full, at, value)];
    }

    /** Right at the time of the key's last record, and later exactly as `StillRight` says. */
    method IncreaseOf(key: Key, at: int) returns (increase: int)
      requires Valid() && (key in samples ==> LastAt(samples[key]) <= at)
      ensures key !in history ==> increase == 0
      ensures key in history ==> (increase == TrueIncrease(history[key], at) <==> StillRight(samples[key], at))
      ensures key in history && at == LastAt(history[key]) ==> increase == TrueIncrease(history[key], at)
    {
      if key !in samples {
        return 0;
      }
      ReadIsExact(history[key], LastAt(history[key]), at);
      IncreaseIsExact(history[key], LastAt(history[key]), at);
      var series := samples[key];
      var baseline := if series[0].at <= at - HOUR_MS then series[0].value else 0;
      increase := if series[|series| - 1].value - baseline < 0 then 0 else series[|series| - 1].value - baseline;
    }
  }

  function LastAt(series: seq<Sample>): int {
    if series == [] then 0 else series[|series| - 1].at
  }
}
