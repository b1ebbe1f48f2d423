/**
 * The two prediction requests. Both trained models are opaque functions from a feature
 * vector to a number, passed in as `model` / `predict`; the table is the cleaned,
 * read-only readings table.
 */
module Handlers {
  import opened Wrappers
  import opened AqiCategory
  import opened Calendar
  import opened Text
  import opened Store
  import opened Features

  /** A predicted AQI and its CPCB band. */
  datatype Prediction = Prediction(value: real, category: Category)

  // ---------- Part A ----------

  /** The POST branch of `pollutant`: build the vector, predict, classify. */
  function PredictCurrent(names: seq<string>, form: map<string, string>,
                          parse: string -> Option<real>, model: seq<real> -> real)
    : (r: Result<Prediction, FormError>)
    ensures r.Success? <==> forall i :: 0 <= i < |names| ==> FieldOk(names[i], form, parse)
    ensures r.Success? ==>
      && CurrentVector(names, form, parse).Success?
      && r.value.value == model(CurrentVector(names, form, parse).value)
      && r.value.category == CategoryOf(r.value.value)
    ensures r.Failure? ==> r.error == CurrentVector(names, form, parse).error
  {
    match CurrentVector(names, form, parse)
    case Failure(e) => Failure(e)
    case Success(x) =>
      var pred := model(x);
      Success(Prediction(pred, CategoryOf(pred)))
  }

  // ---------- Part B ----------

  /** The forecast form: a station name as typed and the four integer time fields. */
  datatype Request = Request(station: string, year: int, month: int, day: int, hour: int)

  /** Why a forecast request produced an error page instead of a result. */
  datatype ForecastError =
    | InvalidDate     // `datetime(...)` rejects the fields (ValueError, caught by the catch-all)
    | NoBaseData      // no row at the requested hour
    | NoLagData       // no row one hour or 24 hours earlier
    | DateOutOfRange  // a shifted time leaves years 1..9999 (OverflowError, caught by the catch-all)

  /** What the result page shows for a successful forecast. */
  datatype ForecastReport = ForecastReport(
    station: string, baseTime: DateHour, features: seq<real>,
    prediction: real, category: Category, forecastTime: DateHour,
    actual: Option<real>, forecastError: Option<real>)

  /** `abs` on the prediction error: the magnitude, whichever side the prediction fell. */
  function Abs(x: real): (r: real)
    ensures r >= 0.0 && (r == x || r == -x)
  {
    if x < 0.0 then -x else x
  }

  function RequestTime(q: Request): DateHour
  {
    DateHour(q.year, q.month, q.day, q.hour)
  }

  /**
   * The POST branch of `forecast`: strip the station, reject a time `datetime` would
   * reject, then forecast at that station and hour.
   */
  function Forecast(table: Table, predict: seq<real> -> real, q: Request)
    : (r: Result<ForecastReport, ForecastError>)
    ensures r == Failure(InvalidDate) <==> !(Valid(RequestTime(q)) && InRange(RequestTime(q)))
    ensures r.Success? ==> r.value.station == Trim(q.station) && r.value.baseTime == RequestTime(q)
  {
    var dt := RequestTime(q);
    if !(Valid(dt) && InRange(dt)) then Failure(InvalidDate)
    else ForecastAt(table, predict, Trim(q.station), dt)
  }

  /**
   * Look up the base row, then the rows one and 24 hours earlier, predict from the
   * 19-column vector, and compare with the next hour's row when there is one.
   */
  function ForecastAt(table: Table, predict: seq<real> -> real, station: string, dt: DateHour)
    : (r: Result<ForecastReport, ForecastError>)
    requires Valid(dt) && InRange(dt)
    ensures r != Failure(InvalidDate)
    ensures r == Failure(NoBaseData) <==> GetRow(table, station, dt).None?
    ensures r.Success? ==>
      && r.value.station == station && r.value.baseTime == dt
      && |r.value.features| == 19
      && r.value.prediction == predict(r.value.features)
  {
    var base := GetRow(table, station, dt);
    if base.None? then Failure(NoBaseData)
    else if !InRange(SubHour(dt)) || !InRange(SubDay(dt)) then Failure(DateOutOfRange)
    else
      var lag1 := GetRow(table, station, SubHour(dt));
      var lag24 := GetRow(table, station, SubDay(dt));
      if lag1.None? || lag24.None? then Failure(NoLagData)
      else
        var x := ForecastVector(base.value, dt, lag1.value, lag24.value);
        var pred := predict(x);
        var next := AddHour(dt);
        if !InRange(next) then Failure(DateOutOfRange)
        else Success(Report(table, station, dt, x, pred))
  }

  /**
   * The result page of a forecast from vector x with prediction pred: the forecast hour
   * is one hour later, and the actual value and the error are shown together, exactly
   * when that hour has a row.
   */
  function Report(table: Table, station: string, dt: DateHour, x: seq<real>, pred: real): (rep: ForecastReport)
    requires Valid(dt)
    ensures rep.forecastTime == AddHour(dt)
    ensures rep.actual.Some? <==> GetRow(table, station, AddHour(dt)).Some?
    ensures rep.forecastError.Some? <==> rep.actual.Some?
    ensures rep.actual.Some? ==>
      && rep.actual.value == GetRow(table, station, AddHour(dt)).value.aqiValue
      && rep.forecastError.value == Abs(rep.actual.value - pred)
    ensures rep.category == CategoryOf(pred)
  {
    var next := AddHour(dt);
    var nextRow := GetRow(table, station, next);
    var actual := if nextRow.Some? then Some(nextRow.value.aqiValue) else None;
    var error := if nextRow.Some? then Some(Abs(nextRow.value.aqiValue - pred)) else None;
    ForecastReport(station, dt, x, pred, CategoryOf(pred), next, actual, error)
  }

  /** The request falls on 1 January of year 1, where 24 hours earlier cannot be represented. */
  predicate OnFirstDay(dt: DateHour)
  {
    dt.year == MinYear && dt.month == 1 && dt.day == 1
  }

  /** The request is the last representable hour, where one hour later cannot be represented. */
  predicate OnLastHour(dt: DateHour)
  {
    dt == DateHour(MaxYear, 12, 31, 23)
  }

  /** The lag rows, looked up one hour earlier and at the same hour of the previous calendar day. */
  predicate LagsPresent(table: Table, station: string, dt: DateHour)
    requires Valid(dt)
  {
    GetRow(table, station, SubHour(dt)).Some? && GetRow(table, station, PrevDay(dt)).Some?
  }

  /**
   * The outcome of a forecast for a valid time, in terms of which rows exist: no base
   * row is always "no base data"; lag data is missing when the base row exists, the date
   * is not 0001-01-01 and either lag row is absent; on 0001-01-01 the 24-hour shift
   * overflows before the lag test, whatever lag rows exist; success needs base and both
   * lags and nothing else from the table (in particular not the next hour's row).
   */
  lemma ForecastOutcome(table: Table, predict: seq<real> -> real, q: Request)
    requires Valid(RequestTime(q)) && InRange(RequestTime(q))
    ensures var station, dt := Trim(q.station), RequestTime(q);
      var r := Forecast(table, predict, q);
      var base := GetRow(table, station, dt).Some?;
      && (!base ==> r == Failure(NoBaseData))
      && (r == Failure(NoLagData) <==> base && !OnFirstDay(dt) && !LagsPresent(table, station, dt))
      && (r == Failure(DateOutOfRange) <==>
            base && (OnFirstDay(dt) || (LagsPresent(table, station, dt) && OnLastHour(dt))))
      && (r.Success? <==> base && !OnFirstDay(dt) && LagsPresent(table, station, dt) && !OnLastHour(dt))
  {
    var dt := RequestTime(q);
    SubHourInRange(dt);
    SubDayInRange(dt);
    AddHourInRange(dt);
  }

  /**
   * A successful forecast used the rows at the requested hour, one hour earlier and the
   * same hour of the previous day, laid out in schema order, and reports the model's
   * answer for exactly that vector.
   */
  lemma ForecastSuccess(table: Table, predict: seq<real> -> real, q: Request)
    requires Forecast(table, predict, q).Success?
    ensures var station, dt := Trim(q.station), RequestTime(q);
      var rep := Forecast(table, predict, q).value;
      && Valid(dt) && InRange(dt)
      && rep.station == station && rep.baseTime == dt
      && GetRow(table, station, dt).Some?
      && GetRow(table, station, SubHour(dt)).Some?
      && GetRow(table, station, PrevDay(dt)).Some?
      && HourOrdinal(SubHour(dt)) == HourOrdinal(dt) - 1
      && HourOrdinal(PrevDay(dt)) == HourOrdinal(dt) - 24
      && rep.features == ForecastVector(GetRow(table, station, dt).value, dt,
           GetRow(table, station, SubHour(dt)).value, GetRow(table, station, PrevDay(dt)).value)
      && |rep.features| == 19
      && rep.prediction == predict(rep.features)
      && rep.category == CategoryOf(rep.prediction)
  {
    var dt := RequestTime(q);
    SubHourOrdinal(dt);
    SubDayOrdinal(dt);
  }

  /**
   * The actual value and the error are reported together, exactly when the next hour's
   * row exists, and the error is the absolute difference from the prediction.
   */
  lemma ForecastComparison(table: Table, predict: seq<real> -> real, q: Request)
    requires Forecast(table, predict, q).Success?
    ensures var station, dt := Trim(q.station), RequestTime(q);
      var rep := Forecast(table, predict, q).value;
      var next := GetRow(table, station, AddHour(dt));
      && Valid(dt)
      && rep.forecastTime == AddHour(dt)
      && HourOrdinal(rep.forecastTime) == HourOrdinal(dt) + 1
      && (rep.actual.Some? <==> next.Some?)
      && (rep.forecastError.Some? <==> next.Some?)
      && (next.Some? ==>
            && rep.actual.value == next.value.aqiValue
            && rep.forecastError.value == Abs(rep.actual.value - rep.prediction)
            && rep.forecastError.value >= 0.0)
  {
    AddHourOrdinal(RequestTime(q));
  }

  /** Whitespace typed around the station name does not change the outcome. */
  lemma ForecastIgnoresPadding(table: Table, predict: seq<real> -> real, q: Request, pre: string, post: string)
    requires AllSpace(pre) && AllSpace(post)
    ensures Forecast(table, predict, q.(station := pre + q.station + post)) == Forecast(table, predict, q)
  {
    TrimPadding(pre, q.station, post);
  }

  /** The forecast only ever looks up a stripped station name. */
  lemma ForecastStripsStation(table: Table, predict: seq<real> -> real, q: Request)
    ensures Forecast(table, predict, q.(station := Trim(q.station))) == Forecast(table, predict, q)
  {
    TrimIdempotent(q.station);
  }

  /** Rows for 2023-01-01 hours 0..2 with AQI 120, 130, 140, and 2022-12-31 hour 1 with AQI 100. */
  function ExampleTable(): Table
  {
    [Row("Anand Vihar", 2022, 12, 31, 1, 100.0),
     Row("Anand Vihar", 2023, 1, 1, 0, 120.0),
     Row("Anand Vihar", 2023, 1, 1, 1, 130.0),
     Row("Anand Vihar", 2023, 1, 1, 2, 140.0)]
  }

  /** The padded station name of the example strips to the table's name. */
  lemma ExampleStation()
    ensures Trim(" Anand Vihar ") == "Anand Vihar"
  {
    var s := "Anand Vihar";
    TrimPadding(" ", s, " ");
    TrimStripped(s);
    assert " " + s + " " == " Anand Vihar ";
  }

  /** Each row of the example table is found at its own key. */
  lemma ExampleLookups(i: int)
    requires 0 <= i < 4
    ensures GetRow(ExampleTable(), "Anand Vihar", TimeOf(ExampleTable()[i])) == Some(ExampleTable()[i])
  {
    var t := ExampleTable();
    assert UniqueKeys(t) by {
      forall a, b | 0 <= a < 4 && 0 <= b < 4 && Matches(t[b], t[a].station, TimeOf(t[a])) ensures a == b {
        assert t[b].hour == t[a].hour && t[b].day == t[a].day;
      }
    }
    GetRowFindsStored(t, i);
  }

  /** The example request succeeds: its base row and both lag rows exist. */
  lemma ExampleSucceeds(table: Table, predict: seq<real> -> real, q: Request)
    requires table == ExampleTable() && q == Request(" Anand Vihar ", 2023, 1, 1, 1)
    ensures Forecast(table, predict, q).Success?
  {
    var dt := RequestTime(q);
    ExampleStation();
    ExampleLookups(0);
    ExampleLookups(1);
    ExampleLookups(2);
    assert SubHour(dt) == TimeOf(table[1]) && PrevDay(dt) == TimeOf(table[0]) && dt == TimeOf(table[2]);
    ForecastOutcome(table, predict, q);
  }

  /** A stand-in predictor: the AQI one hour earlier, column 15 of the vector. */
  function Persistence(x: seq<real>): real
  {
    if |x| > 15 then x[15] else 0.0
  }

  /**
   * A worked request for hour 1 of 2023-01-01 on the example table, with the station
   * typed with padding: the lag columns hold 120 and 100, and the next hour's 140 is
   * compared with the prediction (120 from the stand-in predictor), an error of 20.
   */
  lemma ForecastExample(table: Table, q: Request)
    requires table == ExampleTable() && q == Request(" Anand Vihar ", 2023, 1, 1, 1)
    ensures var r := Forecast(table, Persistence, q);
      && r.Success?
      && r.value.features[15] == 120.0 && r.value.features[16] == 100.0
      && r.value.prediction == 120.0
      && r.value.actual == Some(140.0)
      && r.value.forecastError == Some(20.0)
  {
    var dt := RequestTime(q);
    ExampleSucceeds(table, Persistence, q);
    ExampleStation();
    ExampleLookups(0);
    ExampleLookups(1);
    ExampleLookups(2);
    ExampleLookups(3);
    assert SubHour(dt) == TimeOf(table[1]) && PrevDay(dt) == TimeOf(table[0]);
    assert AddHour(dt) == TimeOf(table[3]) && dt == TimeOf(table[2]);
    ForecastSuccess(table, Persistence, q);
    ForecastComparison(table, Persistence, q);
    ForecastVectorLayout(table[2], dt, table[1], table[0]);
  }

  /** A row with only the station, the hour and the AQI value set. */
  function Row(station: string, year: int, month: int, day: int, hour: int, aqi: real): Reading
  {
    Reading(station, year, month, day, hour, 0.0, 0.0, 0.0, 0.0, 0.0, 0.0, 0.0, 0.0, 0.0, 0.0, 0.0, 0.0, aqi)
  }
}
