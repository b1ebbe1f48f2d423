/**
 * The two model input vectors: the pollutant vector of Part A, built from the form in
 * the order of the pollutant feature list, and the 19-column lag vector of Part B.
 */
module Features {
  import opened Wrappers
  import opened Calendar
  import opened Store

  // ---------- Part A ----------

  /** Why a form could not be turned into a pollutant vector. */
  datatype FormError =
    | MissingField(name: string)   // `request.form[f]` raises KeyError
    | NotANumber(name: string)     // `float(...)` raises ValueError

  /** The form holds a value for `name` that the number parser accepts. */
  predicate FieldOk(name: string, form: map<string, string>, parse: string -> Option<real>)
  {
    name in form && parse(form[name]).Some?
  }

  /** The error raised for a field that is not FieldOk. */
  function FieldError(name: string, form: map<string, string>): FormError
  {
    if name in form then NotANumber(name) else MissingField(name)
  }

  /**
   * `[float(request.form[f]) for f in pollutant_features]`: one number per feature name,
   * in list order; the comprehension stops at the first name that is missing or not a
   * number. `parse` stands for Python's `float` on strings.
   */
  function CurrentVector(names: seq<string>, form: map<string, string>, parse: string -> Option<real>)
    : (r: Result<seq<real>, FormError>)
    ensures r.Success? <==> forall i :: 0 <= i < |names| ==> FieldOk(names[i], form, parse)
    ensures r.Success? ==> |r.value| == |names|
    ensures r.Success? ==> forall i :: 0 <= i < |names| ==>
      names[i] in form && parse(form[names[i]]) == Some(r.value[i])
    ensures r.Failure? ==>
      exists i ::
        && 0 <= i < |names| && !FieldOk(names[i], form, parse)
        && r.error == FieldError(names[i], form)
        && forall j :: 0 <= j < i ==> FieldOk(names[j], form, parse)
  {
    if names == [] then Success([])
    else if !FieldOk(names[0], form, parse) then Failure(FieldError(names[0], form))
    else
      var rest := CurrentVector(names[1..], form, parse);
      if rest.Failure? then
        assert forall k :: 0 <= k < |names| - 1 ==> names[1..][k] == names[k + 1];
        rest
      else
        Success([parse(form[names[0]]).value] + rest.value)
  }

  // ---------- Part B ----------

  /** The columns of the forecast model's input, named. */
  datatype Feature =
    | BasePM25 | BasePM10 | BaseNO2 | BaseSO2 | BaseCO | BaseOzone
    | BaseAT | BaseBP | BaseRH | BaseWS | BaseWD
    | Year | Month | Day | Hour
    | Lag1Aqi | Lag24Aqi | Lag1PM25 | Lag24PM25

  /** The column order in which the forecast handler writes its feature vector. */
  const ForecastSchema: seq<Feature> := [
    BasePM25, BasePM10, BaseNO2, BaseSO2, BaseCO, BaseOzone,
    BaseAT, BaseBP, BaseRH, BaseWS, BaseWD,
    Year, Month, Day, Hour,
    Lag1Aqi, Lag24Aqi, Lag1PM25, Lag24PM25]

  /** The value of one named column, from the base row, the requested hour and the two lag rows. */
  function FeatureValue(f: Feature, base: Reading, dt: DateHour, lag1: Reading, lag24: Reading): real
  {
    match f
    case BasePM25 => base.pm25
    case BasePM10 => base.pm10
    case BaseNO2 => base.no2
    case BaseSO2 => base.so2
    case BaseCO => base.co
    case BaseOzone => base.ozone
    case BaseAT => base.at
    case BaseBP => base.bp
    case BaseRH => base.rh
    case BaseWS => base.ws
    case BaseWD => base.wd
    case Year => dt.year as real
    case Month => dt.month as real
    case Day => dt.day as real
    case Hour => dt.hour as real
    case Lag1Aqi => lag1.aqiValue
    case Lag24Aqi => lag24.aqiValue
    case Lag1PM25 => lag1.pm25
    case Lag24PM25 => lag24.pm25
  }

  /**
   * The handler's literal 19-element vector. Its contract is the ordering contract:
   * column i holds the value of column i of the handler's own column order.
   */
  function ForecastVector(base: Reading, dt: DateHour, lag1: Reading, lag24: Reading): (v: seq<real>)
    ensures |v| == |ForecastSchema| == 19
    ensures forall i :: 0 <= i < |v| ==> v[i] == FeatureValue(ForecastSchema[i], base, dt, lag1, lag24)
  {
    [base.pm25, base.pm10, base.no2, base.so2,
     base.co, base.ozone, base.at, base.bp,
     base.rh, base.ws, base.wd,
     dt.year as real, dt.month as real, dt.day as real, dt.hour as real,
     lag1.aqiValue, lag24.aqiValue,
     lag1.pm25, lag24.pm25]
  }

  /** Every named column appears in the schema exactly once. */
  lemma SchemaIsPermutation(f: Feature)
    ensures exists i :: 0 <= i < |ForecastSchema| && ForecastSchema[i] == f
    ensures forall i, j :: 0 <= i < j < |ForecastSchema| ==> ForecastSchema[i] != ForecastSchema[j]
  {
    var i := match f
      case BasePM25 => 0 case BasePM10 => 1 case BaseNO2 => 2 case BaseSO2 => 3
      case BaseCO => 4 case BaseOzone => 5 case BaseAT => 6 case BaseBP => 7
      case BaseRH => 8 case BaseWS => 9 case BaseWD => 10
      case Year => 11 case Month => 12 case Day => 13 case Hour => 14
      case Lag1Aqi => 15 case Lag24Aqi => 16 case Lag1PM25 => 17 case Lag24PM25 => 18;
    assert ForecastSchema[i] == f;
  }

  /** The vector layout, position by position. */
  lemma ForecastVectorLayout(base: Reading, dt: DateHour, lag1: Reading, lag24: Reading)
    ensures var v := ForecastVector(base, dt, lag1, lag24);
      && |v| == 19
      && v[0] == base.pm25 && v[1] == base.pm10 && v[2] == base.no2 && v[3] == base.so2
      && v[4] == base.co && v[5] == base.ozone && v[6] == base.at && v[7] == base.bp
      && v[8] == base.rh && v[9] == base.ws && v[10] == base.wd
      && v[11] == dt.year as real && v[12] == dt.month as real
      && v[13] == dt.day as real && v[14] == dt.hour as real
      && v[15] == lag1.aqiValue && v[16] == lag24.aqiValue
      && v[17] == lag1.pm25 && v[18] == lag24.pm25
  {
  }
}
