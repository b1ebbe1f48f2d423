/**
 * The historical readings table, loaded once and read-only afterwards, and the exact
 * point lookup `get_row` on it.
 */
module Store {
  import opened Wrappers
  import opened Calendar
  import opened Text

  /** One row of the readings table: station and hour keys, then the measured values. */
  datatype Reading = Reading(
    station: string, year: int, month: int, day: int, hour: int,
    pm25: real, pm10: real, no2: real, so2: real, co: real, ozone: real, nh3: real,
    at: real, rh: real, ws: real, bp: real, wd: real, aqiValue: real)

  /** The table as loaded, in file order. */
  type Table = seq<Reading>

  /** The hour a row describes. */
  function TimeOf(r: Reading): DateHour
  {
    DateHour(r.year, r.month, r.day, r.hour)
  }

  /** The five-column mask of `get_row`: station, year, month, day and hour all equal. */
  predicate Matches(r: Reading, station: string, dt: DateHour)
  {
    r.station == station && r.year == dt.year && r.month == dt.month && r.day == dt.day && r.hour == dt.hour
  }

  /** Row i is the first row of the table that matches. */
  predicate IsFirstMatch(table: Table, i: int, station: string, dt: DateHour)
  {
    0 <= i < |table| && Matches(table[i], station, dt)
    && forall j :: 0 <= j < i ==> !Matches(table[j], station, dt)
  }

  /**
   * `get_row`: the first row, in table order, whose keys equal the query; absent when
   * no row matches.
   */
  function GetRow(table: Table, station: string, dt: DateHour): (r: Option<Reading>)
    ensures r.None? <==> forall i :: 0 <= i < |table| ==> !Matches(table[i], station, dt)
    ensures r.Some? ==> exists i :: IsFirstMatch(table, i, station, dt) && table[i] == r.value
  {
    if |table| == 0 then None
    else if Matches(table[0], station, dt) then Some(table[0])
    else
      var rest := GetRow(table[1..], station, dt);
      assert forall k :: IsFirstMatch(table[1..], k, station, dt) ==> IsFirstMatch(table, k + 1, station, dt);
      rest
  }

  /** A found row carries exactly the station and hour asked for. */
  lemma GetRowKeys(table: Table, station: string, dt: DateHour)
    requires GetRow(table, station, dt).Some?
    ensures GetRow(table, station, dt).value.station == station
    ensures TimeOf(GetRow(table, station, dt).value) == dt
    ensures GetRow(table, station, dt).value in table
  {
  }

  /** At most one row per (station, year, month, day, hour) key. */
  predicate UniqueKeys(table: Table)
  {
    forall i, j :: 0 <= i < |table| && 0 <= j < |table| && Matches(table[j], table[i].station, TimeOf(table[i])) ==> i == j
  }

  /** On a table with unique keys, looking up a stored row's own key returns that row. */
  lemma GetRowFindsStored(table: Table, i: int)
    requires UniqueKeys(table) && 0 <= i < |table|
    ensures GetRow(table, table[i].station, TimeOf(table[i])) == Some(table[i])
  {
    var r := GetRow(table, table[i].station, TimeOf(table[i]));
    assert Matches(table[i], table[i].station, TimeOf(table[i]));
    var k :| IsFirstMatch(table, k, table[i].station, TimeOf(table[i])) && table[k] == r.value;
  }

  /** Load-time cleaning of the Station column: strip every station name, keep everything else. */
  function StripStations(table: Table): (t: Table)
    ensures |t| == |table|
    ensures forall i :: 0 <= i < |t| ==> t[i] == table[i].(station := Trim(table[i].station))
  {
    if table == [] then []
    else [table[0].(station := Trim(table[0].station))] + StripStations(table[1..])
  }

  /**
   * A query whose station strips to the same name as a raw row's station finds a row at
   * that hour once the table is cleaned and the query stripped, however each was padded.
   */
  lemma LookupIgnoresPadding(raw: Table, i: int, query: string)
    requires 0 <= i < |raw| && Trim(query) == Trim(raw[i].station)
    ensures GetRow(StripStations(raw), Trim(query), TimeOf(raw[i])).Some?
  {
    assert Matches(StripStations(raw)[i], Trim(query), TimeOf(raw[i]));
  }

  /** Every station name of the cleaned table is already stripped. */
  lemma StripStationsStripped(raw: Table, i: int)
    requires 0 <= i < |raw|
    ensures Stripped(StripStations(raw)[i].station)
  {
    TrimSpec(raw[i].station);
  }
}
