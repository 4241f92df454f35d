/** `ProcessStations.load_stations_time(var, time, remove_stations, keep_stations, daily)`: the
    stations that report at one of the requested times, restricted to those times, then filtered by
    station. */
module StationTimes {
  import opened Wrappers
  import opened Seqs
  import opened Calendar
  import opened StationFiles

  /** `time` as the caller passes it: one timestamp, or a list (or array) of them. */
  datatype TimeQuery = Scalar(time: Instant) | Many(times: seq<Instant>)

  /** The station's time coordinate holds one of the requested times: the list form's
      `len(set(lst).intersection(ds_time)) != 0`, and the scalar form's `lst in ds_time` for a
      one-element request. */
  predicate Qualifies(series: seq<Obs>, ts: seq<Instant>) {
    exists i, j :: 0 <= i < |ts| && 0 <= j < |series| && series[j].time == ts[i]
  }

  /** The requested times without repeats, each at its first position: the labels
      `pd_time.intersection(...)` can produce. */
  function Dedup(ts: seq<Instant>): (r: seq<Instant>)
    ensures forall i, j :: 0 <= i < j < |r| ==> r[i] != r[j]
    ensures forall t :: t in r <==> t in ts
  {
    if |ts| == 0 then []
    else
      var init := Dedup(ts[..|ts| - 1]);
      var t := ts[|ts| - 1];
      if t in init then init else init + [t]
  }

  /** The rows of a raw frame whose index equals `t`, in file order. */
  function ObsAt(obs: seq<Obs>, t: Instant): seq<Obs> {
    Filter(obs, (o: Obs) => o.time == t)
  }

  /** `df_station.loc[pd_time.intersection(df_station.index)]` on the raw frame: for each requested
      time the station has, every row stored at that time. */
  function RawRestrict(obs: seq<Obs>, ts: seq<Instant>): seq<Obs> {
    Flatten(Map(Dedup(ts), (t: Instant) => ObsAt(obs, t)))
  }

  /** A raw row survives the restriction exactly when its time was requested. */
  lemma RawRestrictMembers(obs: seq<Obs>, ts: seq<Instant>, o: Obs)
    ensures o in RawRestrict(obs, ts) <==> o in obs && o.time in ts
  {
    var labels := Dedup(ts);
    var parts := Map(labels, (t: Instant) => ObsAt(obs, t));
    FlattenMembership(parts, o);
    if o in RawRestrict(obs, ts) {
      var i :| 0 <= i < |parts| && o in parts[i];
      assert labels[i] in labels;
    }
    if o in obs && o.time in ts {
      var i :| 0 <= i < |labels| && labels[i] == o.time;
      var k :| 0 <= k < |obs| && obs[k] == o;
      assert o in parts[i];
    }
  }

  /** Day `d` is a label of `resample('D')`: it lies between the days of the earliest and the latest
      observation, both included. */
  predicate InSpan(obs: seq<Obs>, d: Instant) {
    exists i, j :: 0 <= i < |obs| && 0 <= j < |obs| && AtOrBefore(DayOf(obs[i].time), d) && AtOrBefore(d, DayOf(obs[j].time))
  }

  /** The values of the observations that fall on day `d`, in file order: one daily bin. */
  function DayValues(obs: seq<Obs>, d: Instant): seq<real> {
    Map(Filter(obs, (o: Obs) => DayOf(o.time) == d), (o: Obs) => o.value)
  }

  /** The requested times that are labels of the daily frame: midnights inside the span. */
  function DailyLabels(obs: seq<Obs>, ts: seq<Instant>): seq<Instant> {
    Filter(Dedup(ts), (t: Instant) => t.second == 0 && InSpan(obs, t))
  }

  /** The daily frame restricted to the requested times: one row per requested midnight inside the
      span, holding the aggregate of that day's values. */
  function DailyTimeRows(name: string, lat: real, lon: real, obs: seq<Obs>, agg: Aggregator, ts: seq<Instant>): (rows: seq<Row>)
    ensures forall i :: 0 <= i < |rows| ==>
              && rows[i].name == name && rows[i].lat == lat && rows[i].lon == lon
              && rows[i].time in ts && rows[i].time.second == 0 && InSpan(obs, rows[i].time)
              && rows[i].cell == Aggregated(agg, DayValues(obs, rows[i].time))
    ensures forall i, j :: 0 <= i < j < |rows| ==> rows[i].time != rows[j].time
  {
    var labels := DailyLabels(obs, ts);
    var rows := Map(labels, (t: Instant) => Row(t, name, lat, lon, Aggregated(agg, DayValues(obs, t))));
    assert forall i :: 0 <= i < |rows| ==> rows[i].time in ts by {
      forall i | 0 <= i < |rows| ensures rows[i].time in ts {
        assert labels[i] in Dedup(ts);
      }
    }
    DailyLabelsDistinct(obs, ts);
    rows
  }

  /** Every requested midnight inside the span is a label of the daily frame. */
  lemma DailyLabelsComplete(obs: seq<Obs>, ts: seq<Instant>)
    ensures forall t :: t in ts && t.second == 0 && InSpan(obs, t) ==> t in DailyLabels(obs, ts)
  {
    forall t | t in ts && t.second == 0 && InSpan(obs, t) ensures t in DailyLabels(obs, ts) {
      var d := Dedup(ts);
      var j :| 0 <= j < |d| && d[j] == t;
    }
  }

  /** Conversely, every requested midnight inside the span has its row, holding that day's aggregate. */
  lemma DailyTimeRowsComplete(name: string, lat: real, lon: real, obs: seq<Obs>, agg: Aggregator, ts: seq<Instant>)
    ensures forall t :: t in ts && t.second == 0 && InSpan(obs, t) ==>
              Row(t, name, lat, lon, Aggregated(agg, DayValues(obs, t))) in DailyTimeRows(name, lat, lon, obs, agg, ts)
  {
    var labels := DailyLabels(obs, ts);
    var rows := DailyTimeRows(name, lat, lon, obs, agg, ts);
    assert rows == Map(labels, (t: Instant) => Row(t, name, lat, lon, Aggregated(agg, DayValues(obs, t))));
    DailyLabelsComplete(obs, ts);
    forall t | t in ts && t.second == 0 && InSpan(obs, t)
      ensures Row(t, name, lat, lon, Aggregated(agg, DayValues(obs, t))) in rows
    {
      var k :| 0 <= k < |labels| && labels[k] == t;
      assert rows[k] == Row(t, name, lat, lon, Aggregated(agg, DayValues(obs, t)));
    }
  }

  /** The raw frame restricted to the requested times. */
  function RawTimeRows(name: string, lat: real, lon: real, obs: seq<Obs>, ts: seq<Instant>): (rows: seq<Row>)
    ensures forall i :: 0 <= i < |rows| ==>
              && rows[i].name == name && rows[i].lat == lat && rows[i].lon == lon && rows[i].time in ts
              && exists o :: o in obs && rows[i].time == o.time && rows[i].cell == Observed(o.value)
  {
    var kept := RawRestrict(obs, ts);
    var rows := Map(kept, (o: Obs) => Row(o.time, name, lat, lon, Observed(o.value)));
    assert forall i :: 0 <= i < |rows| ==> rows[i].time in ts && exists o :: o in obs && rows[i].time == o.time && rows[i].cell == Observed(o.value) by {
      forall i | 0 <= i < |rows| ensures rows[i].time in ts && exists o :: o in obs && rows[i].time == o.time && rows[i].cell == Observed(o.value) {
        RawRestrictMembers(obs, ts, kept[i]);
      }
    }
    rows
  }

  /** One station's rows after the restriction, raw or resampled by `agg`. */
  function StationTimeRows(name: string, lat: real, lon: real, obs: seq<Obs>, agg: Aggregator, daily: bool, ts: seq<Instant>): (rows: seq<Row>)
    ensures forall i :: 0 <= i < |rows| ==> rows[i].time in ts
  {
    if daily then DailyTimeRows(name, lat, lon, obs, agg, ts) else RawTimeRows(name, lat, lon, obs, ts)
  }

  /** Filtering a sequence without repeats leaves one without repeats. */
  lemma {:induction false} FilterDistinct(s: seq<Instant>, p: Instant -> bool)
    requires forall i, j :: 0 <= i < j < |s| ==> s[i] != s[j]
    ensures forall i, j :: 0 <= i < j < |Filter(s, p)| ==> Filter(s, p)[i] != Filter(s, p)[j]
    decreases |s|
  {
    if |s| > 0 {
      var init := s[..|s| - 1];
      FilterDistinct(init, p);
      var f := Filter(init, p);
      assert forall i :: 0 <= i < |f| ==> f[i] in init;
      assert s[|s| - 1] !in init;
    }
  }

  lemma DailyLabelsDistinct(obs: seq<Obs>, ts: seq<Instant>)
    ensures var l := DailyLabels(obs, ts); forall i, j :: 0 <= i < j < |l| ==> l[i] != l[j]
  {
    FilterDistinct(Dedup(ts), (t: Instant) => t.second == 0 && InSpan(obs, t));
  }

  /** The loop body for one path: open the file and read its site name (either may raise); a station
      without any requested time contributes nothing; otherwise its restricted rows with its
      coordinates, whose lookup may raise. */
  function LoadAtTimes(disk: Disk, path: string, variable: string, ts: seq<Instant>, daily: bool): (r: Outcome<Option<seq<Row>>>)
    ensures r.Success? <==>
              path in disk.files && disk.files[path].siteName.Some?
              && (Qualifies(disk.files[path].series, ts) ==> disk.files[path].lon.Some? && disk.files[path].lat.Some?)
    ensures r.Success? ==> (r.value.Some? <==> Qualifies(disk.files[path].series, ts))
    ensures r.Success? && r.value.Some? ==>
              var f := disk.files[path];
              r.value.value == StationTimeRows(f.siteName.value, f.lat.value, f.lon.value, f.series,
                                               DailyAggregatorForTime(variable), daily, ts)
    ensures r.Failure? ==>
              r.error == if path !in disk.files then OpenFailed(path)
                         else if disk.files[path].siteName.None? then KeyError("site name")
                         else if disk.files[path].lon.None? then AttributeError("longitude")
                         else AttributeError("latitude")
  {
    var f :- OpenStation(disk, path);
    if f.siteName.None? then Failure(KeyError("site name"))
    else if !Qualifies(f.series, ts) then Success(None)
    else if f.lon.None? then Failure(AttributeError("longitude"))
    else if f.lat.None? then Failure(AttributeError("latitude"))
    else
      Success(Some(StationTimeRows(f.siteName.value, f.lat.value, f.lon.value, f.series,
                                   DailyAggregatorForTime(variable), daily, ts)))
  }

  /** The loop over every listed path, in order: `df_list`, or the first error. */
  function LoadAllAtTimes(disk: Disk, paths: seq<string>, variable: string, ts: seq<Instant>, daily: bool): (r: Outcome<seq<seq<Row>>>)
    ensures r.Failure? <==> exists i :: 0 <= i < |paths| && LoadAtTimes(disk, paths[i], variable, ts, daily).Failure?
    ensures r.Success? ==> |r.value| <= |paths|
  {
    if |paths| == 0 then Success([])
    else
      var init :- LoadAllAtTimes(disk, paths[..|paths| - 1], variable, ts, daily);
      var one :- LoadAtTimes(disk, paths[|paths| - 1], variable, ts, daily);
      assert forall i :: 0 <= i < |paths| - 1 ==> paths[..|paths| - 1][i] == paths[i];
      Success(if one.Some? then init + [one.value] else init)
  }

  /** One step of the loop: the earlier paths loaded, then the last one, appended when it qualifies. */
  lemma LoadAllAtTimesStep(disk: Disk, paths: seq<string>, variable: string, ts: seq<Instant>, daily: bool)
    requires |paths| > 0 && LoadAllAtTimes(disk, paths, variable, ts, daily).Success?
    ensures var init := LoadAllAtTimes(disk, paths[..|paths| - 1], variable, ts, daily);
            var one := LoadAtTimes(disk, paths[|paths| - 1], variable, ts, daily);
            && init.Success? && one.Success?
            && LoadAllAtTimes(disk, paths, variable, ts, daily).value
               == if one.value.Some? then init.value + [one.value.value] else init.value
  {
  }

  /** The loaded tables are empty exactly when no station holds a requested time. */
  lemma {:induction false} LoadAllAtTimesEmpty(disk: Disk, paths: seq<string>, variable: string, ts: seq<Instant>, daily: bool)
    requires LoadAllAtTimes(disk, paths, variable, ts, daily).Success?
    ensures forall i :: 0 <= i < |paths| ==> paths[i] in disk.files
    ensures |LoadAllAtTimes(disk, paths, variable, ts, daily).value| == 0 <==>
              forall i :: 0 <= i < |paths| ==> !Qualifies(disk.files[paths[i]].series, ts)
    decreases |paths|
  {
    if |paths| > 0 {
      var init := paths[..|paths| - 1];
      var p := paths[|paths| - 1];
      LoadAllAtTimesStep(disk, paths, variable, ts, daily);
      LoadAllAtTimesEmpty(disk, init, variable, ts, daily);
      var parts := LoadAllAtTimes(disk, init, variable, ts, daily).value;
      var one := LoadAtTimes(disk, p, variable, ts, daily).value;
      var r := LoadAllAtTimes(disk, paths, variable, ts, daily).value;
      forall i | 0 <= i < |paths| ensures paths[i] in disk.files {
        if i < |init| {
          assert paths[i] == init[i];
        }
      }
      if |r| == 0 {
        assert |parts| == 0 && one.None?;
        forall i | 0 <= i < |paths| ensures !Qualifies(disk.files[paths[i]].series, ts) {
          if i < |init| {
            assert paths[i] == init[i];
          }
        }
      } else if one.Some? {
        assert Qualifies(disk.files[paths[|paths| - 1]].series, ts);
      } else {
        var i :| 0 <= i < |init| && Qualifies(disk.files[init[i]].series, ts);
        assert paths[i] == init[i];
      }
    }
  }

  /** Every loaded row is at a requested time. */
  lemma {:induction false} LoadAllAtTimesRequested(disk: Disk, paths: seq<string>, variable: string, ts: seq<Instant>, daily: bool)
    requires LoadAllAtTimes(disk, paths, variable, ts, daily).Success?
    ensures var parts := LoadAllAtTimes(disk, paths, variable, ts, daily).value;
            forall i, j :: 0 <= i < |parts| && 0 <= j < |parts[i]| ==> parts[i][j].time in ts
    decreases |paths|
  {
    if |paths| > 0 {
      var init := paths[..|paths| - 1];
      var p := paths[|paths| - 1];
      LoadAllAtTimesStep(disk, paths, variable, ts, daily);
      LoadAllAtTimesRequested(disk, init, variable, ts, daily);
    }
  }

  /** Row `x` lies at the coordinates `STATION_LATLON` gives for a station. */
  predicate AtCoordinates(x: Row, c: LatLon) {
    x.lat == c.lat && x.lon == c.lon
  }

  /** The `remove_stations` loop: for each name in turn, look up its coordinates (a missing name
      raises KeyError) and drop every row at exactly those coordinates. */
  function RemoveStations(latlon: map<string, LatLon>, rows: seq<Row>, remove: seq<string>): (r: Outcome<seq<Row>>)
    ensures r.Success? <==> forall i :: 0 <= i < |remove| ==> remove[i] in latlon
    ensures r.Failure? ==> exists i :: 0 <= i < |remove| && remove[i] !in latlon && r.error == KeyError(remove[i])
                                      && forall j :: 0 <= j < i ==> remove[j] in latlon
    ensures r.Success? ==> forall x :: x in r.value <==>
              x in rows && forall i :: 0 <= i < |remove| ==> !AtCoordinates(x, latlon[remove[i]])
  {
    if |remove| == 0 then Success(rows)
    else
      var init := remove[..|remove| - 1];
      var s := remove[|remove| - 1];
      assert forall i :: 0 <= i < |remove| - 1 ==> init[i] == remove[i];
      var kept :- RemoveStations(latlon, rows, init);
      if s !in latlon then Failure(KeyError(s))
      else
        Success(Filter(kept, (x: Row) => !AtCoordinates(x, latlon[s])))
  }

  /** The `keep_stations` branch: for each name in turn, the rows of that station (by
      `station_name`), concatenated; a name given twice contributes its rows twice. */
  function KeepStations(rows: seq<Row>, keep: seq<string>): seq<Row> {
    Flatten(Map(keep, (s: string) => Filter(rows, (x: Row) => x.name == s)))
  }

  lemma KeepStationsMembers(rows: seq<Row>, keep: seq<string>, x: Row)
    ensures x in KeepStations(rows, keep) <==> x in rows && x.name in keep
  {
    var parts := Map(keep, (s: string) => Filter(rows, (x: Row) => x.name == s));
    FlattenMembership(parts, x);
    if x in rows && x.name in keep {
      var i :| 0 <= i < |keep| && keep[i] == x.name;
      var k :| 0 <= k < |rows| && rows[k] == x;
      assert x in parts[i];
    }
  }

  /** `remove_stations` takes precedence: `keep_stations` is consulted only when nothing is removed. */
  function FilterStations(latlon: map<string, LatLon>, rows: seq<Row>, remove: seq<string>, keep: seq<string>): (r: Outcome<seq<Row>>)
    ensures |remove| > 0 ==> r == RemoveStations(latlon, rows, remove)
    ensures |remove| == 0 && |keep| > 0 ==> r == Success(KeepStations(rows, keep))
    ensures |remove| == 0 && |keep| == 0 ==> r == Success(rows)
    ensures r.Success? ==> forall x :: x in r.value ==> x in rows
  {
    assert forall x :: x in KeepStations(rows, keep) ==> x in rows by {
      forall x | x in KeepStations(rows, keep) ensures x in rows {
        KeepStationsMembers(rows, keep, x);
      }
    }
    if |remove| > 0 then RemoveStations(latlon, rows, remove)
    else if |keep| > 0 then Success(KeepStations(rows, keep))
    else Success(rows)
  }

  /** The returned table: the value column renamed to `<var>_station`, and the rows indexed by
      (time, latitude, longitude, station_name) in concatenation order, unsorted. */
  datatype Table = Table(column: string, rows: seq<Row>)

  /** The requested times, with a bare timestamp taken as a one-element list. */
  function RequestedTimes(q: TimeQuery): (ts: seq<Instant>)
    ensures q.Scalar? ==> ts == [q.time]
    ensures q.Many? ==> ts == q.times
  {
    match q
    case Scalar(t) => [t]
    case Many(ts) => ts
  }

  /** `load_stations_time` with a bare timestamp accepted as its docstring promises: list the station
      files, load each, concatenate (raising when no station qualifies), filter, rename. */
  function LoadStationsTime(cfg: StationConfig, disk: Disk, variable: string, q: TimeQuery,
                            remove: seq<string>, keep: seq<string>, daily: bool): (r: Outcome<Table>)
    ensures r.Success? ==> r.value.column == variable + "_station"
    ensures r.Success? ==> StationPaths(cfg, disk, variable).Success?
    ensures r.Success? ==> forall i :: 0 <= i < |remove| ==> remove[i] in cfg.latlon
    ensures r.Success? ==> forall i :: 0 <= i < |r.value.rows| ==> r.value.rows[i].time in RequestedTimes(q)
  {
    var ts := RequestedTimes(q);
    var paths :- StationPaths(cfg, disk, variable);
    var parts :- LoadAllAtTimes(disk, paths, variable, ts, daily);
    LoadAllAtTimesRequested(disk, paths, variable, ts, daily);
    if |parts| == 0 then Failure(NoObjectsToConcatenate)
    else
      var all := Flatten(parts);
      assert forall x :: x in all ==> x.time in ts by {
        forall x | x in all ensures x.time in ts {
          FlattenMembership(parts, x);
        }
      }
      var rows :- FilterStations(cfg.latlon, all, remove, keep);
      Success(Table(variable + "_station", rows))
  }

  /** A successful table holds exactly the station filter applied to the per-station tables
      concatenated in listing order, and at least one station contributed. */
  lemma LoadStationsTimeFiltered(cfg: StationConfig, disk: Disk, variable: string, q: TimeQuery,
                                 remove: seq<string>, keep: seq<string>, daily: bool)
    requires LoadStationsTime(cfg, disk, variable, q, remove, keep, daily).Success?
    ensures var paths := StationPaths(cfg, disk, variable).value;
            var parts := LoadAllAtTimes(disk, paths, variable, RequestedTimes(q), daily);
            && parts.Success? && |parts.value| > 0
            && FilterStations(cfg.latlon, Flatten(parts.value), remove, keep)
               == Success(LoadStationsTime(cfg, disk, variable, q, remove, keep, daily).value.rows)
  {
  }

  /** `load_stations_time` as written: a bare timestamp reaches `pd.DatetimeIndex(time)`, which raises
      TypeError for a scalar, before any file is opened. */
  function LoadStationsTimeAsWritten(cfg: StationConfig, disk: Disk, variable: string, q: TimeQuery,
                                     remove: seq<string>, keep: seq<string>, daily: bool): (r: Outcome<Table>)
    ensures q.Many? ==> r == LoadStationsTime(cfg, disk, variable, q, remove, keep, daily)
  {
    if q.Scalar? then Failure(TypeError)
    else LoadStationsTime(cfg, disk, variable, q, remove, keep, daily)
  }

  /** `x` is a raw row of the station file at `path` at one of the requested times. */
  predicate RawTimeRow(disk: Disk, path: string, ts: seq<Instant>, x: Row) {
    && path in disk.files
    && var f := disk.files[path];
    && f.siteName.Some? && f.lat.Some? && f.lon.Some?
    && x.name == f.siteName.value && x.lat == f.lat.value && x.lon == f.lon.value
    && x.time in ts
    && exists o :: o in f.series && x.time == o.time && x.cell == Observed(o.value)
  }

  /** The raw restriction loses no observation at a requested time and adds none. */
  lemma RawTimeRowsMembers(name: string, lat: real, lon: real, obs: seq<Obs>, ts: seq<Instant>, x: Row)
    ensures x in RawTimeRows(name, lat, lon, obs, ts) <==>
              x.name == name && x.lat == lat && x.lon == lon && x.time in ts
              && exists o :: o in obs && x.time == o.time && x.cell == Observed(o.value)
  {
    var kept := RawRestrict(obs, ts);
    var rows := RawTimeRows(name, lat, lon, obs, ts);
    assert rows == Map(kept, (o: Obs) => Row(o.time, name, lat, lon, Observed(o.value)));
    if x.name == name && x.lat == lat && x.lon == lon && x.time in ts
       && exists o :: o in obs && x.time == o.time && x.cell == Observed(o.value) {
      var o :| o in obs && x.time == o.time && x.cell == Observed(o.value);
      RawRestrictMembers(obs, ts, o);
      var k :| 0 <= k < |kept| && kept[k] == o;
      assert rows[k] == x;
    }
  }

  /** One path's contribution without resampling: its rows at the requested times, or nothing when
      it holds none of them. */
  lemma LoadAtTimesRaw(disk: Disk, path: string, variable: string, ts: seq<Instant>, x: Row)
    requires LoadAtTimes(disk, path, variable, ts, false).Success?
    ensures var one := LoadAtTimes(disk, path, variable, ts, false).value;
            && (one.Some? ==> (x in one.value <==> RawTimeRow(disk, path, ts, x)))
            && (one.None? ==> !RawTimeRow(disk, path, ts, x))
  {
    var f := disk.files[path];
    RawTimeRowQualifies(disk, path, ts, x);
    if LoadAtTimes(disk, path, variable, ts, false).value.Some? {
      RawTimeRowsMembers(f.siteName.value, f.lat.value, f.lon.value, f.series, ts, x);
    }
  }

  lemma RawTimeRowQualifies(disk: Disk, path: string, ts: seq<Instant>, x: Row)
    ensures RawTimeRow(disk, path, ts, x) ==> Qualifies(disk.files[path].series, ts)
  {
    if RawTimeRow(disk, path, ts, x) {
      var f := disk.files[path];
      var o :| o in f.series && x.time == o.time && x.cell == Observed(o.value);
      var i :| 0 <= i < |ts| && ts[i] == x.time;
      var j :| 0 <= j < |f.series| && f.series[j] == o;
    }
  }

  /** The concatenated raw tables hold exactly the rows of the listed stations at requested times. */
  lemma {:induction false} LoadAllRawRows(disk: Disk, paths: seq<string>, variable: string, ts: seq<Instant>, x: Row)
    requires LoadAllAtTimes(disk, paths, variable, ts, false).Success?
    ensures x in Flatten(LoadAllAtTimes(disk, paths, variable, ts, false).value) <==>
              exists i :: 0 <= i < |paths| && RawTimeRow(disk, paths[i], ts, x)
    decreases |paths|
  {
    if |paths| > 0 {
      var init := paths[..|paths| - 1];
      var p := paths[|paths| - 1];
      LoadAllAtTimesStep(disk, paths, variable, ts, false);
      LoadAllRawRows(disk, init, variable, ts, x);
      LoadAtTimesRaw(disk, p, variable, ts, x);
      var parts := LoadAllAtTimes(disk, init, variable, ts, false).value;
      var one := LoadAtTimes(disk, p, variable, ts, false).value;
      var all := LoadAllAtTimes(disk, paths, variable, ts, false).value;
      if one.Some? {
        assert (parts + [one.value])[..|parts|] == parts;
        assert Flatten(all) == Flatten(parts) + one.value;
      }
      assert (x in Flatten(all)) == (x in Flatten(parts) || RawTimeRow(disk, p, ts, x));
      ExistsSnoc(disk, paths, init, ts, x);
    }
  }

  lemma ExistsSnoc(disk: Disk, paths: seq<string>, init: seq<string>, ts: seq<Instant>, x: Row)
    requires |paths| > 0 && init == paths[..|paths| - 1]
    ensures (exists i :: 0 <= i < |paths| && RawTimeRow(disk, paths[i], ts, x)) <==>
              (exists i :: 0 <= i < |init| && RawTimeRow(disk, init[i], ts, x))
              || RawTimeRow(disk, paths[|paths| - 1], ts, x)
  {
    if exists i :: 0 <= i < |paths| && RawTimeRow(disk, paths[i], ts, x) {
      var i :| 0 <= i < |paths| && RawTimeRow(disk, paths[i], ts, x);
      if i < |init| {
        assert init[i] == paths[i];
      }
    }
    if exists i :: 0 <= i < |init| && RawTimeRow(disk, init[i], ts, x) {
      var i :| 0 <= i < |init| && RawTimeRow(disk, init[i], ts, x);
      assert init[i] == paths[i];
    }
  }

  /** Without resampling or station filters, the table holds exactly the rows of the listed stations
      at the requested times: every stored reading at such a time, and nothing else. */
  lemma LoadStationsTimeRows(cfg: StationConfig, disk: Disk, variable: string, q: TimeQuery, x: Row)
    requires LoadStationsTime(cfg, disk, variable, q, [], [], false).Success?
    ensures var paths := StationPaths(cfg, disk, variable).value;
            x in LoadStationsTime(cfg, disk, variable, q, [], [], false).value.rows <==>
              exists i :: 0 <= i < |paths| && RawTimeRow(disk, paths[i], RequestedTimes(q), x)
  {
    var paths := StationPaths(cfg, disk, variable).value;
    var ts := RequestedTimes(q);
    assert LoadAllAtTimes(disk, paths, variable, ts, false).Success?;
    var parts := LoadAllAtTimes(disk, paths, variable, ts, false).value;
    assert LoadStationsTime(cfg, disk, variable, q, [], [], false).value.rows == Flatten(parts);
    LoadAllRawRows(disk, paths, variable, ts, x);
  }

  /** Every listed station file opens and carries its site name and coordinates. */
  predicate AllReadable(disk: Disk, paths: seq<string>) {
    forall i :: 0 <= i < |paths| ==>
      paths[i] in disk.files && disk.files[paths[i]].siteName.Some?
      && disk.files[paths[i]].lat.Some? && disk.files[paths[i]].lon.Some?
  }

  lemma LoadAllReadable(disk: Disk, paths: seq<string>, variable: string, ts: seq<Instant>, daily: bool)
    requires AllReadable(disk, paths)
    ensures LoadAllAtTimes(disk, paths, variable, ts, daily).Success?
  {
  }

  /** With a bare timestamp accepted, a listed station that holds a reading at that time contributes
      the reading to the table. */
  lemma ScalarFindsReading(cfg: StationConfig, disk: Disk, variable: string, t: Instant, k: int, o: Obs)
    requires StationPaths(cfg, disk, variable).Success?
    requires var paths := StationPaths(cfg, disk, variable).value;
             AllReadable(disk, paths) && 0 <= k < |paths| && o in disk.files[paths[k]].series && o.time == t
    ensures var r := LoadStationsTime(cfg, disk, variable, Scalar(t), [], [], false);
            var f := disk.files[StationPaths(cfg, disk, variable).value[k]];
            r.Success? && Row(t, f.siteName.value, f.lat.value, f.lon.value, Observed(o.value)) in r.value.rows
  {
    var paths := StationPaths(cfg, disk, variable).value;
    var f := disk.files[paths[k]];
    LoadAllReadable(disk, paths, variable, [t], false);
    LoadAllAtTimesEmpty(disk, paths, variable, [t], false);
    var j :| 0 <= j < |f.series| && f.series[j] == o;
    assert f.series[j].time == [t][0];
    assert Qualifies(f.series, [t]);
    var x := Row(t, f.siteName.value, f.lat.value, f.lon.value, Observed(o.value));
    assert RawTimeRow(disk, paths[k], [t], x);
    LoadStationsTimeRows(cfg, disk, variable, Scalar(t), x);
  }

  /** As written, the same request raises TypeError although a station holds a reading at `t`. */
  lemma AsWrittenScalarRaises(cfg: StationConfig, disk: Disk, variable: string, t: Instant, k: int, o: Obs)
    requires StationPaths(cfg, disk, variable).Success?
    requires var paths := StationPaths(cfg, disk, variable).value;
             AllReadable(disk, paths) && 0 <= k < |paths| && o in disk.files[paths[k]].series && o.time == t
    ensures LoadStationsTimeAsWritten(cfg, disk, variable, Scalar(t), [], [], false) == Failure(TypeError)
    ensures LoadStationsTime(cfg, disk, variable, Scalar(t), [], [], false).Success?
  {
    ScalarFindsReading(cfg, disk, variable, t, k, o);
  }

  /** When every listed file opens and names its site but none holds a requested time (an empty
      list included), the concatenation raises; coordinates are never looked up. */
  lemma NoStationAtTimes(cfg: StationConfig, disk: Disk, variable: string, q: TimeQuery,
                         remove: seq<string>, keep: seq<string>, daily: bool)
    requires StationPaths(cfg, disk, variable).Success?
    requires var paths := StationPaths(cfg, disk, variable).value;
             forall i :: 0 <= i < |paths| ==>
               && paths[i] in disk.files && disk.files[paths[i]].siteName.Some?
               && !Qualifies(disk.files[paths[i]].series, RequestedTimes(q))
    ensures LoadStationsTime(cfg, disk, variable, q, remove, keep, daily) == Failure(NoObjectsToConcatenate)
  {
    var paths := StationPaths(cfg, disk, variable).value;
    var ts := RequestedTimes(q);
    forall i | 0 <= i < |paths| ensures LoadAtTimes(disk, paths[i], variable, ts, daily).Success? {
    }
    LoadAllAtTimesEmpty(disk, paths, variable, ts, daily);
  }

  /** With `daily`, each row of a station is one requested midnight inside its span, holding the
      day's values aggregated by sum for precipitation and by mean otherwise. */
  lemma DailyCells(disk: Disk, path: string, variable: string, ts: seq<Instant>)
    requires LoadAtTimes(disk, path, variable, ts, true).Success?
    requires LoadAtTimes(disk, path, variable, ts, true).value.Some?
    ensures var rows := LoadAtTimes(disk, path, variable, ts, true).value.value;
            var obs := disk.files[path].series;
            forall i :: 0 <= i < |rows| ==>
              && rows[i].time in ts && rows[i].time.second == 0 && InSpan(obs, rows[i].time)
              && rows[i].cell.Aggregated?
              && rows[i].cell.inputs == DayValues(obs, rows[i].time)
              && (rows[i].cell.agg == Sum <==> variable == "precipitation")
    ensures var rows := LoadAtTimes(disk, path, variable, ts, true).value.value;
            var obs := disk.files[path].series;
            forall t :: t in ts && t.second == 0 && InSpan(obs, t) ==> exists i :: 0 <= i < |rows| && rows[i].time == t
  {
    var f := disk.files[path];
    DailyTimeRowsComplete(f.siteName.value, f.lat.value, f.lon.value, f.series, DailyAggregatorForTime(variable), ts);
  }

  /** A name listed twice in `keep_stations` contributes its rows twice. */
  lemma {:induction false} KeepStationsTwice(rows: seq<Row>, keep: seq<string>)
    ensures KeepStations(rows, keep + keep) == KeepStations(rows, keep) + KeepStations(rows, keep)
  {
    var f := (s: string) => Filter(rows, (x: Row) => x.name == s);
    var m := Map(keep, f);
    assert |Map(keep + keep, f)| == |m + m|;
    assert forall i :: 0 <= i < |m + m| ==> Map(keep + keep, f)[i] == (m + m)[i];
    assert Map(keep + keep, f) == m + m;
    FlattenAppend(m, m);
  }

  /** Removal goes by coordinates, not by name: any station at a removed station's coordinates is
      dropped too. */
  lemma RemoveByCoordinates(latlon: map<string, LatLon>, rows: seq<Row>, remove: seq<string>, keep: seq<string>, x: Row, k: int)
    requires FilterStations(latlon, rows, remove, keep).Success?
    requires 0 <= k < |remove| && remove[k] in latlon && AtCoordinates(x, latlon[remove[k]])
    ensures x !in FilterStations(latlon, rows, remove, keep).value
  {
  }
}
