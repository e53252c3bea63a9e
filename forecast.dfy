/** The forecast entry points of `quartz_solar_forecast/forecast.py`: the
    dispatch of `run_forecast` on the model name, the timestamp rules of the
    two predictors, and the post-processing of the Tryolabs predictions (a
    48-hour window over the rows, then the rows re-keyed by their date).

    Instants are whole seconds since the epoch. The clock, the date parsers
    and formatter, the weather and PV data loaders and the two forecasting
    models are parameters (an `Env`); power values are carried through
    unchanged. */
module Forecast {
  import opened Wrappers
  import opened Text

  // ---------------------------------------------------------------------
  // Timestamps

  /** The `"15min"` frequency, in seconds. */
  const Quarter := 900
  /** `pd.Timedelta(hours=48)`, in seconds. */
  const Horizon := 48 * 3600

  /** `Timestamp.floor("15min")`: the last quarter-hour boundary at or before
      `t` (towards the past, also before the epoch). */
  function Floor15(t: int): (r: int)
    ensures r % Quarter == 0
    ensures r <= t < r + Quarter
  {
    t - t % Quarter
  }

  /** The floor is the only boundary in the quarter hour that holds `t`. */
  lemma FloorUnique(t: int, m: int)
    requires m % Quarter == 0 && m <= t < m + Quarter
    ensures m == Floor15(t)
  {
  }

  /** The floor is the greatest boundary at or before `t`. */
  lemma FloorGreatest(t: int, m: int)
    requires m % Quarter == 0 && m <= t
    ensures m <= Floor15(t)
  {
  }

  /** A boundary is its own floor, so flooring twice changes nothing. */
  lemma FloorIdempotent(t: int)
    ensures Floor15(Floor15(t)) == Floor15(t)
  {
    FloorUnique(Floor15(t), Floor15(t));
  }

  /** `Timestamp.round("15min")`: the nearest quarter-hour boundary; a tie
      goes to the boundary that is an even number of quarter hours from the
      epoch, as pandas rounds half to even. */
  function Round15(t: int): (r: int)
    ensures r % Quarter == 0
    ensures -Quarter / 2 <= r - t <= Quarter / 2
  {
    var down := Floor15(t);
    var rem := t - down;
    if rem < Quarter / 2 then down
    else if rem > Quarter / 2 then down + Quarter
    else if (down / Quarter) % 2 == 0 then down
    else down + Quarter
  }

  function Abs(x: int): nat {
    if x < 0 then -x else x
  }

  /** No boundary is nearer to `t` than its rounding. */
  lemma RoundNearest(t: int, m: int)
    requires m % Quarter == 0
    ensures Abs(Round15(t) - t) <= Abs(m - t)
  {
    var down := Floor15(t);
    if m <= t {
      FloorGreatest(t, m);
      assert t - m >= t - down;
    } else {
      assert (m - down) % Quarter == 0;
      assert m - down >= Quarter;
    }
  }

  /** At a tie the rounding lands on an even number of quarter hours. */
  lemma RoundTieEven(t: int)
    requires t % Quarter == Quarter / 2
    ensures (Round15(t) / Quarter) % 2 == 0
  {
  }

  /** A boundary rounds to itself. */
  lemma RoundAligned(t: int)
    requires t % Quarter == 0
    ensures Round15(t) == t
  {
    FloorUnique(t, t);
  }

  /** `end_time = start_time + pd.Timedelta(hours=48)`. */
  function WindowEnd(start: int): (end: int)
    ensures end - start == 172800
  {
    start + Horizon
  }

  // ---------------------------------------------------------------------
  // Prediction tables

  /** A row of a predictions frame: its `date` column and the rest of the
      row. */
  type Row<V> = (int, V)

  /** A frame indexed by date: the index and, position by position, the
      rest of each row. */
  datatype Indexed<V> = Indexed(index: seq<int>, values: seq<V>)

  /** `predictions[(predictions["date"] >= start) & (predictions["date"] < end)]`:
      the rows whose date lies in `[start, end)`, in their original order. */
  function Window<V>(rows: seq<Row<V>>, start: int, end: int): (r: seq<Row<V>>)
    ensures |r| <= |rows|
    ensures forall i :: 0 <= i < |r| ==> r[i] in rows && start <= r[i].0 < end
    ensures forall i :: 0 <= i < |rows| && start <= rows[i].0 < end ==> rows[i] in r
  {
    if rows == [] then []
    else (if start <= rows[0].0 < end then [rows[0]] else []) + Window(rows[1..], start, end)
  }

  /** Filtering distributes over concatenation: rows keep their relative
      order and each is kept or dropped on its own date alone. */
  lemma {:induction false} WindowAppend<V>(a: seq<Row<V>>, b: seq<Row<V>>, start: int, end: int)
    ensures Window(a + b, start, end) == Window(a, start, end) + Window(b, start, end)
  {
    if a == [] {
      assert a + b == b;
    } else {
      assert (a + b)[1..] == a[1..] + b;
      WindowAppend(a[1..], b, start, end);
    }
  }

  /** `a` is `b` with some elements left out, in the same order. */
  predicate Subsequence<T(==)>(a: seq<T>, b: seq<T>)
    decreases |b|
  {
    if a == [] then true
    else if b == [] then false
    else if a[0] == b[0] then Subsequence(a[1..], b[1..])
    else Subsequence(a, b[1..])
  }

  /** The window adds no row, alters none and reorders none. */
  lemma {:induction false} WindowSubsequence<V>(rows: seq<Row<V>>, start: int, end: int)
    ensures Subsequence(Window(rows, start, end), rows)
  {
    if rows != [] {
      WindowSubsequence(rows[1..], start, end);
      var w := Window(rows, start, end);
      if start <= rows[0].0 < end {
        assert w[0] == rows[0] && w[1..] == Window(rows[1..], start, end);
      } else {
        assert w == Window(rows[1..], start, end);
      }
    }
  }

  /** Rows that all lie in the window are kept as they are. */
  lemma {:induction false} WindowAllInside<V>(rows: seq<Row<V>>, start: int, end: int)
    requires forall i :: 0 <= i < |rows| ==> start <= rows[i].0 < end
    ensures Window(rows, start, end) == rows
  {
    if rows != [] {
      WindowAllInside(rows[1..], start, end);
      assert [rows[0]] + rows[1..] == rows;
    }
  }

  /** Filtering again with the same bounds changes nothing. */
  lemma WindowIdempotent<V>(rows: seq<Row<V>>, start: int, end: int)
    ensures Window(Window(rows, start, end), start, end) == Window(rows, start, end)
  {
    WindowAllInside(Window(rows, start, end), start, end);
  }

  function Max(a: int, b: int): int {
    if a < b then b else a
  }

  function Min(a: int, b: int): int {
    if a < b then a else b
  }

  /** Two successive windows are the window on the intersection. */
  lemma {:induction false} WindowNested<V>(rows: seq<Row<V>>, s1: int, e1: int, s2: int, e2: int)
    ensures Window(Window(rows, s1, e1), s2, e2) == Window(rows, Max(s1, s2), Min(e1, e2))
  {
    if rows != [] {
      WindowNested(rows[1..], s1, e1, s2, e2);
      var head := if s1 <= rows[0].0 < e1 then [rows[0]] else [];
      WindowAppend(head, Window(rows[1..], s1, e1), s2, e2);
    }
  }

  /** The dates of the rows, in order. */
  function DatesOf<V>(rows: seq<Row<V>>): (d: seq<int>)
    ensures |d| == |rows|
  {
    seq(|rows|, i requires 0 <= i < |rows| => rows[i].0)
  }

  /** `set_index("date")` on rows: the dates become the index, the rest of
      each row stays at its position. */
  function ReKey<V>(rows: seq<Row<V>>): (r: Indexed<V>)
    ensures |r.index| == |rows| && |r.values| == |rows|
    ensures forall i :: 0 <= i < |rows| ==> r.index[i] == rows[i].0 && r.values[i] == rows[i].1
  {
    Indexed(DatesOf(rows), seq(|rows|, i requires 0 <= i < |rows| => rows[i].1))
  }

  /** `reset_index()`: the index goes back into a `date` column. */
  function Unkey<V>(ix: Indexed<V>): (rows: seq<Row<V>>)
    requires |ix.index| == |ix.values|
  {
    seq(|ix.index|, i requires 0 <= i < |ix.index| => (ix.index[i], ix.values[i]))
  }

  /** Re-keying loses nothing: the rows come back from the indexed frame,
      and an indexed frame comes back from its rows. */
  lemma ReKeyRoundTrip<V>(rows: seq<Row<V>>, ix: Indexed<V>)
    requires |ix.index| == |ix.values|
    ensures Unkey(ReKey(rows)) == rows
    ensures ReKey(Unkey(ix)) == ix
  {
    var back := Unkey(ReKey(rows));
    assert forall i :: 0 <= i < |rows| ==> back[i] == rows[i];
  }

  // ---------------------------------------------------------------------
  // The frame the Tryolabs predictions are post-processed in

  /** A pandas frame of prediction rows: its index (row labels) and its
      rows. While `dateIsColumn` holds, each row's date is a column; after
      `set_index("date")` it is the index. */
  class Frame<V> {
    var index: seq<int>
    var rows: seq<Row<V>>
    var dateIsColumn: bool

    ghost predicate Valid()
      reads this
    {
      |index| == |rows|
    }

    /** A frame with the default index `0, 1, 2, ...`. */
    constructor (rows: seq<Row<V>>)
      ensures Valid() && this.rows == rows && dateIsColumn
      ensures index == Positions(|rows|)
    {
      this.index := Positions(|rows|);
      this.rows := rows;
      this.dateIsColumn := true;
    }

    /** The frame as a date-indexed table, once the date is the index: when
        the labels are the dates of the rows, it is the rows re-keyed by
        date, and resetting its index gives the rows back. */
    function AsIndexed(): (r: Indexed<V>)
      reads this
      requires Valid() && !dateIsColumn
      ensures |r.index| == |r.values| == |rows|
      ensures index == DatesOf(rows) ==> r == ReKey(rows) && Unkey(r) == rows
    {
      ReKeyRoundTrip(rows, ReKey(rows));
      Indexed(index, ReKey(rows).values)
    }

    /** `frame[(frame["date"] >= start) & (frame["date"] < end)]`: a new
        frame with the rows in the window, each keeping its label. */
    method Select(start: int, end: int) returns (g: Frame<V>)
      requires Valid() && dateIsColumn
      ensures fresh(g) && g.Valid() && g.dateIsColumn
      ensures g.rows == Window(rows, start, end)
      ensures g.index == WindowLabels(index, rows, start, end)
    {
      var labels, all := index, rows;
      var keptRows: seq<Row<V>> := [];
      var keptLabels: seq<int> := [];
      var i := 0;
      while i < |all|
        invariant 0 <= i <= |all|
        invariant keptRows == Window(all[..i], start, end)
        invariant keptLabels == WindowLabels(labels[..i], all[..i], start, end)
      {
        WindowStep(labels, all, i, start, end);
        if start <= all[i].0 < end {
          keptRows := keptRows + [all[i]];
          keptLabels := keptLabels + [labels[i]];
        }
        i := i + 1;
      }
      assert all[..i] == all && labels[..i] == labels;
      WindowLabelsLength(labels, all, start, end);
      g := new Frame(keptRows);
      g.index := keptLabels;
    }

    /** `reset_index(drop=True)`: the labels are replaced by `0, 1, 2, ...`.
        pandas returns a new frame and the caller rebinds its variable to
        it; here the labels of this frame are reset in place, which is the
        same as long as nothing else refers to this frame (in `PostProcess`
        it is the fresh result of `Select`). */
    method ResetIndex()
      requires Valid()
      modifies this
      ensures Valid() && index == Positions(|rows|)
      ensures rows == old(rows) && dateIsColumn == old(dateIsColumn)
    {
      index := Positions(|rows|);
    }

    /** `set_index("date", inplace=True)`: the dates replace the index. */
    method SetIndexDate()
      requires Valid() && dateIsColumn
      modifies this
      ensures Valid() && !dateIsColumn
      ensures index == DatesOf(rows) && rows == old(rows)
    {
      index := DatesOf(rows);
      dateIsColumn := false;
    }
  }

  /** The default index of a frame with `n` rows. */
  function Positions(n: nat): (p: seq<int>)
    ensures |p| == n && forall i :: 0 <= i < n ==> p[i] == i
  {
    seq(n, i requires 0 <= i < n => i)
  }

  /** The labels of the rows the window keeps. */
  function WindowLabels<V>(labels: seq<int>, rows: seq<Row<V>>, start: int, end: int): seq<int>
    requires |labels| == |rows|
  {
    if rows == [] then []
    else (if start <= rows[0].0 < end then [labels[0]] else []) + WindowLabels(labels[1..], rows[1..], start, end)
  }

  lemma {:induction false} WindowLabelsAppend<V>(labels: seq<int>, rows: seq<Row<V>>, l: int, x: Row<V>, start: int, end: int)
    requires |labels| == |rows|
    ensures WindowLabels(labels + [l], rows + [x], start, end)
      == WindowLabels(labels, rows, start, end) + (if start <= x.0 < end then [l] else [])
  {
    if rows == [] {
      assert labels + [l] == [l] && rows + [x] == [x];
    } else {
      assert (labels + [l])[1..] == labels[1..] + [l];
      assert (rows + [x])[1..] == rows[1..] + [x];
      WindowLabelsAppend(labels[1..], rows[1..], l, x, start, end);
    }
  }

  /** One more row: the window and its labels grow by that row when its
      date is in the window. */
  lemma WindowStep<V>(labels: seq<int>, rows: seq<Row<V>>, i: nat, start: int, end: int)
    requires |labels| == |rows| && i < |rows|
    ensures Window(rows[..i + 1], start, end)
      == Window(rows[..i], start, end) + (if start <= rows[i].0 < end then [rows[i]] else [])
    ensures WindowLabels(labels[..i + 1], rows[..i + 1], start, end)
      == WindowLabels(labels[..i], rows[..i], start, end) + (if start <= rows[i].0 < end then [labels[i]] else [])
  {
    assert rows[..i + 1] == rows[..i] + [rows[i]];
    assert labels[..i + 1] == labels[..i] + [labels[i]];
    WindowAppend(rows[..i], [rows[i]], start, end);
    WindowLabelsAppend(labels[..i], rows[..i], labels[i], rows[i], start, end);
  }

  lemma {:induction false} WindowLabelsLength<V>(labels: seq<int>, rows: seq<Row<V>>, start: int, end: int)
    requires |labels| == |rows|
    ensures |WindowLabels(labels, rows, start, end)| == |Window(rows, start, end)|
  {
    if rows != [] {
      WindowLabelsLength(labels[1..], rows[1..], start, end);
    }
  }

  /** The post-processing of `predict_tryolabs`: the window, then
      `reset_index(drop=True)`, then `set_index("date", inplace=True)`. The
      result is the windowed rows re-keyed by date. */
  method PostProcess<V>(predictions: Frame<V>, start: int, end: int) returns (f: Frame<V>)
    requires predictions.Valid() && predictions.dateIsColumn
    ensures fresh(f) && f.Valid() && !f.dateIsColumn
    ensures f.AsIndexed() == ReKey(Window(predictions.rows, start, end))
  {
    f := predictions.Select(start, end);
    f.ResetIndex();
    f.SetIndexDate();
  }

  // ---------------------------------------------------------------------
  // The predictors and the dispatch

  /** The `PVSite` fields the predictors pass on. */
  datatype Site = Site(latitude: real, longitude: real, capacityKwp: real, orientation: real, tilt: real)

  /** The `ts` argument: absent, an instant, or a string to be parsed. */
  datatype TimeArg = NoTime | Instant(t: int) | Text(s: string)

  /** What the predictors call and cannot be seen here: the clock, the two
      parsers of a timestamp string (`datetime.fromisoformat` and
      `pd.Timestamp`, each failing with `ValueError` on text it cannot
      read), the `"%Y-%m-%d"` formatter, the weather and PV data loaders, the
      OCF model and the Tryolabs predictor. */
  datatype Env<!Nwp, !Pv, -M, V> = Env(
    now: int,
    fromIsoFormat: string -> Result<int>,
    parseTimestamp: string -> Result<int>,
    formatDate: int -> string,
    getNwp: (Site, int, string) -> Nwp,
    makePvData: (Site, int) -> Pv,
    forecastV1: (string, Nwp, Pv, int, Option<M>) -> Indexed<V>,
    predictPowerOutput: (real, real, string, real, real, real) -> Option<seq<Row<V>>>)

  /** The instant `predict_ocf` forecasts from: now rounded to the nearest
      quarter hour, the parsed string, or the given instant unchanged. */
  function OcfStart<Nwp, Pv, M, V>(env: Env<Nwp, Pv, M, V>, ts: TimeArg): (r: Result<int>)
    ensures ts.NoTime? ==> r.Success? && r.value % Quarter == 0 && Abs(r.value - env.now) <= Quarter / 2
    ensures ts.Instant? ==> r == Success(ts.t)
    ensures ts.Text? ==> r == env.fromIsoFormat(ts.s)
  {
    match ts
    case NoTime => Success(Round15(env.now))
    case Instant(t) => Success(t)
    case Text(s) => env.fromIsoFormat(s)
  }

  /** `predict_ocf(site, model, ts, nwp_source)`. */
  function PredictOcf<Nwp, Pv, M, V>(env: Env<Nwp, Pv, M, V>, site: Site, model: Option<M>, ts: TimeArg,
                                     nwpSource: string): (r: Result<Indexed<V>>)
    ensures r.Failure? <==> OcfStart(env, ts).Failure?
    ensures r.Success? ==>
      var t := OcfStart(env, ts).value;
      r.value == env.forecastV1(nwpSource, env.getNwp(site, t, nwpSource), env.makePvData(site, t), t, model)
  {
    var t :- OcfStart(env, ts);
    var nwp := env.getNwp(site, t, nwpSource);
    var pv := env.makePvData(site, t);
    Success(env.forecastV1(nwpSource, nwp, pv, t, model))
  }

  /** The instant `predict_tryolabs` reads: now, the given instant, or the
      string parsed by `pd.Timestamp`. */
  function TryolabsInstant<Nwp, Pv, M, V>(env: Env<Nwp, Pv, M, V>, ts: TimeArg): (r: Result<int>)
    ensures r.Failure? ==> ts.Text? && env.parseTimestamp(ts.s).Failure?
    ensures ts.NoTime? ==> r == Success(env.now)
    ensures ts.Instant? ==> r == Success(ts.t)
    ensures ts.Text? ==> r == env.parseTimestamp(ts.s)
  {
    match ts
    case NoTime => Success(env.now)
    case Instant(t) => Success(t)
    case Text(s) => env.parseTimestamp(s)
  }

  /** `predict_tryolabs(site, ts)`: the predictor's rows for the day of `ts`,
      cut to the 48 hours from the quarter hour that holds `ts` and keyed by
      date; `None` when the predictor has nothing. */
  function PredictTryolabs<Nwp, Pv, M, V>(env: Env<Nwp, Pv, M, V>, site: Site, ts: TimeArg): (r: Result<Option<Indexed<V>>>)
    ensures r.Failure? <==> TryolabsInstant(env, ts).Failure?
  {
    var t :- TryolabsInstant(env, ts);
    var startDate := env.formatDate(t);
    var startTime := Floor15(t);
    var endTime := WindowEnd(startTime);
    match env.predictPowerOutput(site.latitude, site.longitude, startDate, site.capacityKwp, site.orientation, site.tilt)
    case None => Success(None)
    case Some(rows) => Success(Some(ReKey(Window(rows, startTime, endTime))))
  }

  /** The dates a window keeps are exactly the dates of the rows inside it. */
  lemma WindowDates<V>(rows: seq<Row<V>>, start: int, end: int, k: int)
    ensures k in DatesOf(Window(rows, start, end))
      <==> start <= k < end && exists i :: 0 <= i < |rows| && rows[i].0 == k
  {
    var w := Window(rows, start, end);
    if k in DatesOf(w) {
      var j :| 0 <= j < |w| && DatesOf(w)[j] == k;
      assert w[j] in rows;
      var i :| 0 <= i < |rows| && rows[i] == w[j];
      assert rows[i].0 == k;
    }
    if start <= k < end && exists i :: 0 <= i < |rows| && rows[i].0 == k {
      var i :| 0 <= i < |rows| && rows[i].0 == k;
      assert rows[i] in w;
      var j :| 0 <= j < |w| && w[j] == rows[i];
      assert DatesOf(w)[j] == k;
    }
  }

  /** What the Tryolabs path promises: the predictor is asked for the day of
      the instant; `None` passes through; otherwise the result, read back as
      rows, is the predictor's rows in the 48 hours from the quarter hour
      holding the instant, in their order, and its keys are exactly the
      dates of those rows. */
  lemma TryolabsContract<Nwp, Pv, M, V>(env: Env<Nwp, Pv, M, V>, site: Site, ts: TimeArg, t: int)
    requires TryolabsInstant(env, ts) == Success(t)
    ensures
      var answer := env.predictPowerOutput(site.latitude, site.longitude, env.formatDate(t),
                                           site.capacityKwp, site.orientation, site.tilt);
      var r := PredictTryolabs(env, site, ts);
      var start := Floor15(t);
      && r.Success?
      && (answer.None? <==> r.value.None?)
      && (answer.Some? ==>
            var ix := r.value.value;
            && start % Quarter == 0 && start <= t < start + Quarter
            && |ix.index| == |ix.values|
            && Unkey(ix) == Window(answer.value, start, WindowEnd(start))
            && Subsequence(Unkey(ix), answer.value)
            && forall k :: k in ix.index <==>
                 start <= k < WindowEnd(start) && exists i :: 0 <= i < |answer.value| && answer.value[i].0 == k)
  {
    var answer := env.predictPowerOutput(site.latitude, site.longitude, env.formatDate(t),
                                         site.capacityKwp, site.orientation, site.tilt);
    if answer.Some? {
      var start := Floor15(t);
      var rows := answer.value;
      var end := WindowEnd(start);
      var ix := ReKey(Window(rows, start, end));
      assert PredictTryolabs(env, site, ts) == Success(Some(ix));
      WindowKeyed(rows, start, end);
      assert forall k :: k in ix.index <==>
        start <= k < end && exists i :: 0 <= i < |rows| && rows[i].0 == k;
    }
  }

  /** The rows of a window, re-keyed by date: read back, they are the window,
      a subsequence of the rows, and the keys are exactly the dates inside
      the window that some row carries. */
  lemma WindowKeyed<V>(rows: seq<Row<V>>, start: int, end: int)
    ensures
      var ix := ReKey(Window(rows, start, end));
      && |ix.index| == |ix.values|
      && Unkey(ix) == Window(rows, start, end)
      && Subsequence(Unkey(ix), rows)
      && forall k :: k in ix.index <==>
           start <= k < end && exists i :: 0 <= i < |rows| && rows[i].0 == k
  {
    var w := Window(rows, start, end);
    var ix := ReKey(w);
    ReKeyRoundTrip(w, ix);
    WindowSubsequence(rows, start, end);
    assert ix.index == DatesOf(w);
    forall k ensures k in ix.index <==> start <= k < end && exists i :: 0 <= i < |rows| && rows[i].0 == k
    {
      WindowDates(rows, start, end, k);
    }
  }

  /** The message of the `ValueError` for an unknown model: it names the
      rejected model and both supported ones. */
  function UnsupportedMessage(model: string): (msg: string)
    ensures Contains(msg, model)
    ensures Contains(msg, "'tryolabs'")
    ensures Contains(msg, "'ocf'")
  {
    var p := "Unsupported model: " + model + ". Choose between ";
    var q := p + "'tryolabs'" + " and ";
    var msg := q + "'ocf'";
    assert msg[19..19 + |model|] == model;
    OccursContains(msg, model, 19);
    assert msg[|p|..|p| + 10] == "'tryolabs'";
    OccursContains(msg, "'tryolabs'", |p|);
    assert msg[|q|..|q| + 5] == "'ocf'";
    OccursContains(msg, "'ocf'", |q|);
    msg
  }

  /** `run_forecast(site, model="ocf", ts=None, nwp_source="icon")`. The OCF
      model is run without a loaded model object; both predictors return
      a frame (the Tryolabs one possibly `None`). */
  function RunForecast<Nwp, Pv, M, V>(env: Env<Nwp, Pv, M, V>, site: Site, model: string := "ocf",
                                      ts: TimeArg := NoTime, nwpSource: string := "icon")
    : (r: Result<Option<Indexed<V>>>)
    ensures model == "ocf" ==>
      var o := PredictOcf(env, site, None, ts, nwpSource);
      (r.Success? <==> o.Success?) && (r.Success? ==> r.value == Some(o.value)) && (r.Failure? ==> r.error == o.error)
    ensures model == "tryolabs" ==> r == PredictTryolabs(env, site, ts)
    ensures model != "ocf" && model != "tryolabs" ==> r == Failure(ValueError(UnsupportedMessage(model)))
  {
    if model == "ocf" then
      var frame :- PredictOcf(env, site, None, ts, nwpSource);
      Success(Some(frame))
    else if model == "tryolabs" then
      PredictTryolabs(env, site, ts)
    else
      Failure(ValueError(UnsupportedMessage(model)))
  }

  /** The default model is OCF, run on the given `ts` and source with no
      model object. */
  lemma DefaultIsOcf<Nwp, Pv, M, V>(env: Env<Nwp, Pv, M, V>, site: Site, ts: TimeArg)
    ensures RunForecast(env, site, ts := ts) == RunForecast(env, site, "ocf", ts, "icon")
    ensures
      var r := RunForecast(env, site, ts := ts);
      var o := PredictOcf(env, site, None, ts, "icon");
      && (r.Success? <==> o.Success?)
      && (r.Success? ==> r.value == Some(o.value))
      && (r.Failure? ==> r.error == o.error)
  {
  }

  /** The Tryolabs path ignores the weather source. */
  lemma TryolabsIgnoresNwpSource<Nwp, Pv, M, V>(env: Env<Nwp, Pv, M, V>, site: Site, ts: TimeArg, a: string, b: string)
    ensures RunForecast(env, site, "tryolabs", ts, a) == RunForecast(env, site, "tryolabs", ts, b)
    ensures RunForecast(env, site, "tryolabs", ts, a) == PredictTryolabs(env, site, ts)
  {
  }

  /** An unknown model fails before any collaborator is consulted, with a
      message naming it and both supported models. */
  lemma UnsupportedModel<Nwp, Pv, M, V>(env: Env<Nwp, Pv, M, V>, site: Site, model: string, ts: TimeArg, nwpSource: string)
    requires model != "ocf" && model != "tryolabs"
    ensures
      var r := RunForecast(env, site, model, ts, nwpSource);
      && r.Failure? && r.error.ValueError?
      && Contains(r.error.message, model)
      && Contains(r.error.message, "'tryolabs'")
      && Contains(r.error.message, "'ocf'")
  {
  }

  /** Without a timestamp the OCF forecast starts at a quarter-hour boundary
      within 450 seconds of now, while a given instant is used as it is,
      without flooring. */
  lemma OcfDefaultStart<Nwp, Pv, M, V>(env: Env<Nwp, Pv, M, V>, site: Site, t: int, nwpSource: string)
    ensures
      var s := Round15(env.now);
      && s % Quarter == 0 && Abs(s - env.now) <= Quarter / 2
      && (forall m :: m % Quarter == 0 ==> Abs(s - env.now) <= Abs(m - env.now))
      && PredictOcf(env, site, None, NoTime, nwpSource)
         == PredictOcf(env, site, None, Instant(s), nwpSource)
      && PredictOcf(env, site, None, Instant(t), nwpSource)
         == Success(env.forecastV1(nwpSource, env.getNwp(site, t, nwpSource), env.makePvData(site, t), t, None))
  {
    forall m | m % Quarter == 0 ensures Abs(Round15(env.now) - env.now) <= Abs(m - env.now) {
      RoundNearest(env.now, m);
    }
  }
}
