# AQI prediction and next-hour forecast — Dafny model

This project models the request logic of the Flask server `AQI_PREDICTION_ML/FLASK_PROJECT/runserver.py`.
The server serves air-quality predictions in two parts.

- **Part A (`pollutant`).** It reads one number per pollutant feature from the form and predicts the current AQI. Then it classifies the AQI into a CPCB band.
- **Part B (`forecast`).** It predicts the next hour's AQI for a station and an hour.
  - It looks up the readings at that hour, one hour earlier and 24 hours earlier in the historical table.
  - It lays them out in a fixed 19-column vector and passes that vector to the forecast model.
  - When the table also has the next hour's reading, it reports that actual AQI and the absolute error.

The model has one module per component.

| module | file | what it holds |
|---|---|---|
| `Wrappers` | wrappers.dfy | `Option` (a missing row) and `Result` (an error page). |
| `AqiCategory` | category.dfy | The CPCB classifier `aqi_category_cpcb`. It is checked against a breakpoint-counting reference definition. |
| `Calendar` | calendar.dfy | `datetime ± timedelta(hours=…)` on the proleptic Gregorian calendar. It is checked against an hour ordinal like Python's `toordinal`. |
| `Text` | text.dfy | Python's `str.strip()`, with the whitespace set of `str.isspace()`. |
| `Store` | store.dfy | The readings table as an immutable `seq<Reading>`, `get_row`, and the load-time stripping of the Station column. |
| `Features` | features.dfy | The Part A vector comprehension and the Part B column schema and vector. |
| `Handlers` | handlers.dfy | The two POST handlers, `PredictCurrent` and `Forecast`, with lemmas about their outcomes. |

Both trained models are opaque and are passed in as functions `seq<real> -> real`.
In Part A, Python's `float` on a form string is passed in as `parse: string -> Option<real>`.
The historical table is loaded before any request and never changes, so every handler is a pure function of the table, the models and the form.

Some behaviour of the code differs from what a reader might expect. The model follows the code:

- **Linear scan.** A pre-indexed store would return the one row stored under a key. `get_row` is a boolean-mask scan that returns the first matching row in table order. `Store.GetRow` models that scan and promises the first match. It promises the unique match only on a table with unique keys (`GetRowFindsStored`).
- **Part A errors.** One might expect a missing or non-numeric field to give a parse-error page. The code has no `try` there, so the `KeyError` or `ValueError` escapes the handler. `CurrentVector` reports it as `MissingField` or `NotANumber` for the first failing name in list order.
- **Next hour at the end of the calendar.** A missing next-hour row is never an error, but the next hour itself must be representable. The code computes `dt + timedelta(hours=1)` after predicting (line 107). At 9999-12-31 23:00 that raises `OverflowError`, and the catch-all turns the otherwise successful forecast into an error page. `Forecast` reports `DateOutOfRange` there (`ForecastOutcome`).
- **Lag checks.** The code looks up both lag rows and then tests them together, rather than stopping after the first missing one. Away from 1 January of year 1 the outcome is the same `NoLagData`, and each lag is decisive on its own. On 1 January of year 1 the 24-hour shift at line 90 overflows before the lag test at line 92, even when the lag-1 row is missing, so a version that stopped at the first missing lag would answer "lag data unavailable" where the code reports `DateOutOfRange` (`ForecastOutcome`).

## Model

| member | source | states |
|---|---|---|
| AqiCategory.CategoryOf | AQI_PREDICTION_ML/FLASK_PROJECT/runserver.py:22-28 | `aqi_category_cpcb`: the value lies in the breakpoint interval of the band returned, above the previous breakpoint and at most its own. |
| AqiCategory.CategoryBands | AQI_PREDICTION_ML/FLASK_PROJECT/runserver.py:22-28 | Each band holds exactly its half-open interval, upper bound included: Good iff aqi ≤ 50, Satisfactory iff 50 < aqi ≤ 100, Moderate, Poor, Very Poor likewise, Severe iff aqi > 400. |
| AqiCategory.ExactlyOneBand | AQI_PREDICTION_ML/FLASK_PROJECT/runserver.py:22-28 | A value lies in a band's breakpoint interval iff the classifier returns that band, so every value has exactly one band. |
| AqiCategory.RankIsCountBelow | AQI_PREDICTION_ML/FLASK_PROJECT/runserver.py:22-28 | The band's severity rank equals the number of CPCB breakpoints (50, 100, 200, 300, 400) strictly below the value. |
| AqiCategory.CountBelowMonotone | AQI_PREDICTION_ML/FLASK_PROJECT/runserver.py:22-28 | Counting the breakpoints below a value never decreases as the value grows. |
| AqiCategory.CategoryMonotone | AQI_PREDICTION_ML/FLASK_PROJECT/runserver.py:22-28 | a ≤ b implies the band of a is no more severe than the band of b. |
| AqiCategory.Boundaries | AQI_PREDICTION_ML/FLASK_PROJECT/runserver.py:22-28 | 50 is "Good", 51 and 100 are "Satisfactory", 200 is "Moderate", 300 is "Poor", 400 is "Very Poor", 401 is "Severe". |
| Calendar.AddHour | AQI_PREDICTION_ML/FLASK_PROJECT/runserver.py:107 | One hour after a valid date-hour is a valid date-hour. |
| Calendar.SubHour | AQI_PREDICTION_ML/FLASK_PROJECT/runserver.py:89 | One hour before a valid date-hour is a valid date-hour. |
| Calendar.SubHours | AQI_PREDICTION_ML/FLASK_PROJECT/runserver.py:90 | n hours before a valid date-hour is a valid date-hour. |
| Calendar.AddHourOrdinal | AQI_PREDICTION_ML/FLASK_PROJECT/runserver.py:107 | Adding an hour advances the hour ordinal (days since 0001-01-01 × 24 + hour) by exactly 1, across day, month and year ends. |
| Calendar.SubHourOrdinal | AQI_PREDICTION_ML/FLASK_PROJECT/runserver.py:89 | Subtracting an hour moves the hour ordinal back by exactly 1. |
| Calendar.SubHoursOrdinal | AQI_PREDICTION_ML/FLASK_PROJECT/runserver.py:90 | Subtracting n hours moves the hour ordinal back by exactly n. |
| Calendar.SubDayOrdinal | AQI_PREDICTION_ML/FLASK_PROJECT/runserver.py:90 | Subtracting 24 hours moves the hour ordinal back by exactly 24. |
| Calendar.SubAddHour | AQI_PREDICTION_ML/FLASK_PROJECT/runserver.py:107 | SubHour(AddHour(d)) == d for every valid d. |
| Calendar.AddSubHour | AQI_PREDICTION_ML/FLASK_PROJECT/runserver.py:89 | AddHour(SubHour(d)) == d for every valid d. |
| Calendar.NextPrevDay | AQI_PREDICTION_ML/FLASK_PROJECT/runserver.py:90 | The previous calendar day is valid, and the day after it is the original date. |
| Calendar.SubHoursSameDay | AQI_PREDICTION_ML/FLASK_PROJECT/runserver.py:89-90 | Going back at most the current hour stays on the same day and only lowers the hour. |
| Calendar.SubHoursComposes | AQI_PREDICTION_ML/FLASK_PROJECT/runserver.py:89-90 | Going back m hours and then n hours is going back m + n hours. |
| Calendar.SubDay | AQI_PREDICTION_ML/FLASK_PROJECT/runserver.py:90 | `dt - timedelta(hours=24)` is a valid date-hour: the same hour of the previous calendar day. |
| Calendar.SubHoursDayBack | AQI_PREDICTION_ML/FLASK_PROJECT/runserver.py:90 | 24 one-hour steps back land on the same hour of the previous calendar day, across month ends, year ends and 29 February. |
| Calendar.HourOrdinalInjective | AQI_PREDICTION_ML/FLASK_PROJECT/runserver.py:89-90 | Two valid date-hours with the same hour ordinal are equal. |
| Calendar.DayOrdinalInjective | AQI_PREDICTION_ML/FLASK_PROJECT/runserver.py:89-90 | Two valid dates with the same day ordinal have the same year, month and day. |
| Calendar.AddHourUnique | AQI_PREDICTION_ML/FLASK_PROJECT/runserver.py:107 | e == AddHour(d) iff e is a valid date-hour whose ordinal is one more than d's. |
| Calendar.SubDayUnique | AQI_PREDICTION_ML/FLASK_PROJECT/runserver.py:90 | e == SubDay(d) iff e is a valid date-hour whose ordinal is 24 less than d's. |
| Calendar.AddHourInRange | AQI_PREDICTION_ML/FLASK_PROJECT/runserver.py:107 | An hour later leaves years 1..9999 iff the time is 9999-12-31 23:00. |
| Calendar.SubHourInRange | AQI_PREDICTION_ML/FLASK_PROJECT/runserver.py:89 | An hour earlier leaves years 1..9999 iff the time is 0001-01-01 00:00. |
| Calendar.SubDayInRange | AQI_PREDICTION_ML/FLASK_PROJECT/runserver.py:90 | 24 hours earlier leaves years 1..9999 iff the date is 0001-01-01, at any hour. |
| Calendar.LeapDayExamples | AQI_PREDICTION_ML/FLASK_PROJECT/runserver.py:89-90 | The shifts cross 28/29 February correctly in 2024, 2023, 1900 and 2000, and cross the 2022/2023 year end. |
| Text.Trim | AQI_PREDICTION_ML/FLASK_PROJECT/runserver.py:76 | `str.strip()`: the result has no whitespace at either end and is never longer than the input. |
| Text.TrimStartSpec | AQI_PREDICTION_ML/FLASK_PROJECT/runserver.py:76 | Dropping leading whitespace keeps a suffix, drops only whitespace, and stops at a non-whitespace character. |
| Text.TrimEndSpec | AQI_PREDICTION_ML/FLASK_PROJECT/runserver.py:76 | Dropping trailing whitespace keeps a prefix, drops only whitespace, and stops at a non-whitespace character. |
| Text.TrimSpec | AQI_PREDICTION_ML/FLASK_PROJECT/runserver.py:76 | `strip()` returns a slice s[i..j]. Only whitespace lies outside the slice, and the slice neither starts nor ends with whitespace. |
| Text.TrimStripped | AQI_PREDICTION_ML/FLASK_PROJECT/runserver.py:76 | A name with no whitespace at either end strips to itself. |
| Text.TrimIdempotent | AQI_PREDICTION_ML/FLASK_PROJECT/runserver.py:76 | Stripping twice is the same as stripping once. |
| Text.TrimPadding | AQI_PREDICTION_ML/FLASK_PROJECT/runserver.py:76 | Whitespace added before or after a name does not change what it strips to. |
| Text.TrimAllSpace | AQI_PREDICTION_ML/FLASK_PROJECT/runserver.py:76 | A string made only of whitespace strips to the empty string from either end. |
| Store.GetRow | AQI_PREDICTION_ML/FLASK_PROJECT/runserver.py:30-38 | Absent iff no row matches station, year, month, day and hour together. Otherwise it is the first matching row in table order. |
| Store.GetRowKeys | AQI_PREDICTION_ML/FLASK_PROJECT/runserver.py:30-38 | A found row is in the table, and its station and four time fields equal the query. |
| Store.GetRowFindsStored | AQI_PREDICTION_ML/FLASK_PROJECT/runserver.py:30-38 | On a table with at most one row per key, looking up a stored row's own key returns exactly that row. |
| Store.StripStations | AQI_PREDICTION_ML/FLASK_PROJECT/runserver.py:12 | Cleaning the table keeps its length and every row, except that each station name is replaced by its stripped form. |
| Store.LookupIgnoresPadding | AQI_PREDICTION_ML/FLASK_PROJECT/runserver.py:12 | If a raw row's station and a query strip to the same name, the stripped query finds a row at that hour in the cleaned table. |
| Store.StripStationsStripped | AQI_PREDICTION_ML/FLASK_PROJECT/runserver.py:12 | Every station name in the cleaned table has no whitespace at either end. |
| Features.CurrentVector | AQI_PREDICTION_ML/FLASK_PROJECT/runserver.py:56 | It succeeds iff every feature name has a parsable form value. Then it has one entry per name, in list order, each the parsed value. Otherwise the error names the first failing feature, and tells a missing key from a value that is not a number. |
| Features.ForecastVector | AQI_PREDICTION_ML/FLASK_PROJECT/runserver.py:96-103 | The vector has 19 columns, and column i holds the value of column i of the named column list, in the order the handler writes it. |
| Features.SchemaIsPermutation | AQI_PREDICTION_ML/FLASK_PROJECT/runserver.py:96-103 | Every named column occurs in the schema, and none occurs twice. |
| Features.ForecastVectorLayout | AQI_PREDICTION_ML/FLASK_PROJECT/runserver.py:96-103 | Columns 0-10 are base PM2.5, PM10, NO2, SO2, CO, Ozone, AT, BP, RH, WS, WD. Columns 11-14 are year, month, day, hour. Columns 15 and 16 are the lag-1 and lag-24 AQI. Columns 17 and 18 are the lag-1 and lag-24 PM2.5. |
| Handlers.PredictCurrent | AQI_PREDICTION_ML/FLASK_PROJECT/runserver.py:55-63 | It succeeds iff every feature field is present and numeric. The prediction is the model applied to the Part A vector, and its category is the CPCB band of the prediction. Otherwise the error is the vector's error. |
| Handlers.Abs | AQI_PREDICTION_ML/FLASK_PROJECT/runserver.py:112 | The error magnitude is non-negative and is the difference or its negation. |
| Handlers.Forecast | AQI_PREDICTION_ML/FLASK_PROJECT/runserver.py:74-127 | The POST branch of `forecast`. The invalid-date error occurs iff `datetime` rejects the fields (bad month, day, hour, or a year outside 1..9999), whatever the table holds. A success reports the stripped station and the requested time. |
| Handlers.ForecastAt | AQI_PREDICTION_ML/FLASK_PROJECT/runserver.py:84-112 | For a valid time: "no base data" iff no row matches at that hour. A success reports the station and time asked for, a 19-column vector, and the model's answer for that vector. |
| Handlers.Report | AQI_PREDICTION_ML/FLASK_PROJECT/runserver.py:105-124 | The forecast time is one hour later. Actual and error are shown together, exactly when that hour has a row. The actual is that row's AQI, the error is \|actual − prediction\|, and the category is the prediction's band. |
| Handlers.ForecastOutcome | AQI_PREDICTION_ML/FLASK_PROJECT/runserver.py:84-107 | For a valid time: no base row always gives "no base data", whatever lag rows exist. "Lag data unavailable" holds iff the base row exists, the date is not 0001-01-01, and the lag-1 or the lag-24 row is absent. The date-overflow error holds exactly when the base row exists and the date is 0001-01-01, or at 9999-12-31 23:00 with the base and both lag rows present. Success needs the base and both lags and never the next hour's row. |
| Handlers.ForecastSuccess | AQI_PREDICTION_ML/FLASK_PROJECT/runserver.py:84-105 | On success the vector is built from the rows at dt, at one hour earlier and at the same hour of the previous day (ordinals −1 and −24). It has 19 columns. The prediction is the model's answer for that vector, and the category is its band. |
| Handlers.ForecastComparison | AQI_PREDICTION_ML/FLASK_PROJECT/runserver.py:107-112 | On success, actual and error are present iff the row one hour later exists, and both are present together. Then actual is that row's AQI and error = \|actual − prediction\| ≥ 0. The forecast time is one ordinal hour after the base time. |
| Handlers.ForecastIgnoresPadding | AQI_PREDICTION_ML/FLASK_PROJECT/runserver.py:76 | Whitespace typed around the station name does not change the forecast. |
| Handlers.ForecastStripsStation | AQI_PREDICTION_ML/FLASK_PROJECT/runserver.py:76 | Forecasting with the already-stripped name gives the same result, so every lookup uses the stripped name. |
| Handlers.ExampleStation | AQI_PREDICTION_ML/FLASK_PROJECT/runserver.py:76 | " Anand Vihar " strips to "Anand Vihar". |
| Handlers.ExampleLookups | AQI_PREDICTION_ML/FLASK_PROJECT/runserver.py:30-38 | Each row of the four-row example table is found at its own key. |
| Handlers.ExampleSucceeds | AQI_PREDICTION_ML/FLASK_PROJECT/runserver.py:84-94 | The example request for 2023-01-01 01:00 finds its base row and both lag rows, so it succeeds. |
| Handlers.ForecastExample | AQI_PREDICTION_ML/FLASK_PROJECT/runserver.py:84-112 | Example: lag AQIs 120 (00:00) and 100 (previous day 01:00) land in columns 15 and 16. The next hour's 140 is compared with a prediction of 120, for an error of 20. |

## Left out

- Flask routing, `render_template`, the HTML pages, the page-error texts and `app.run` are web plumbing. Errors are modelled as the closed kinds `FormError` and `ForecastError`.
- `pd.read_csv`, the stripping of column names, and `joblib.load` of the models and feature lists are file I/O. The cleaned table, the feature-name list and the two predictors are parameters.
- The random-forest and forecast models are opaque functions. Predictor exceptions are not modelled.
- `round(..., 2)` of the prediction and the error is left out, as is IEEE float behaviour. Readings and predictions are `real`, so the category is taken of the unrounded prediction.
- `int(...)` parsing of the forecast form's time fields and a missing form key are not modelled. The request carries integers and a station string. `float(...)` in Part A is the `parse` parameter.
- The `strftime` formatting of the base and forecast times is output formatting. The report carries the two `DateHour` values instead.
- The catch-all `except Exception` becomes two error kinds: `InvalidDate` for the `ValueError` of `datetime(...)` and `DateOutOfRange` for the `OverflowError` of a shift. Other library exceptions are not modelled.
- The default values of the GET form only pre-fill the page.
- `astype(str)` on the Station column is not modelled. Station names are already strings.
- `forecast_features`, the trained column list read at `runserver.py` line 19, is loaded but never compared with the vector. The handler builds the vector by position, so the model makes no claim that this order matches the columns the forecast model was trained on.
