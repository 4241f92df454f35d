/** `ProcessStations.load_stations(var, years)`: every station whose recorded year span meets a
    requested year, loaded, concatenated, cut to the calendar window and sorted by index. */
module StationYears {
  import opened Wrappers
  import opened Seqs
  import opened Calendar
  import opened StationFiles
  import opened RowOrder

  /** `years` as the caller passes it: a bare int or a list. */
  datatype YearsArg = OneYear(year: int) | YearList(years: seq<int>)

  /** `if isinstance(years, int): years = [years]`. */
  function NormaliseYears(a: YearsArg): (ys: seq<int>)
    ensures a.OneYear? ==> ys == [a.year]
    ensures a.YearList? ==> ys == a.years
  {
    match a
    case OneYear(y) => [y]
    case YearList(ys) => ys
  }

  /** `any(year in range(row['start_year'], row['end_year'] + 1) for year in years)`. */
  predicate CoversRequestedYear(m: Meta, years: seq<int>) {
    exists i :: 0 <= i < |years| && m.startYear <= years[i] <= m.endYear
  }

  /** `time >= str(years[0])` and `time <= f'{years[-1]}-12-31'`: the bounds are the first and the
      last list elements, and the upper one is midnight at the start of 31 December. */
  predicate InYearWindow(t: Instant, years: seq<int>)
    requires |years| > 0
  {
    AtOrBefore(YearStart(years[0]), t) && AtOrBefore(t, LastDayStart(years[|years| - 1]))
  }

  /** The index of `stations_meta[condition]`: the scanned paths whose span meets a requested year. */
  function SelectedPaths(meta: seq<MetaRow>, years: seq<int>): (paths: seq<string>)
    ensures |paths| <= |meta|
    ensures forall p :: p in paths <==> exists i :: 0 <= i < |meta| && meta[i].path == p && CoversRequestedYear(meta[i].meta, years)
  {
    var kept := Filter(meta, (r: MetaRow) => CoversRequestedYear(r.meta, years));
    var paths := Map(kept, (r: MetaRow) => r.path);
    assert forall p :: p in paths ==> exists i :: 0 <= i < |meta| && meta[i].path == p && CoversRequestedYear(meta[i].meta, years) by {
      forall p | p in paths ensures exists i :: 0 <= i < |meta| && meta[i].path == p && CoversRequestedYear(meta[i].meta, years) {
        var k :| 0 <= k < |paths| && paths[k] == p;
        assert kept[k] in kept;
      }
    }
    assert forall i :: 0 <= i < |meta| && CoversRequestedYear(meta[i].meta, years) ==> meta[i].path in paths by {
      forall i | 0 <= i < |meta| && CoversRequestedYear(meta[i].meta, years) ensures meta[i].path in paths {
        var k :| 0 <= k < |kept| && kept[k] == meta[i];
        assert paths[k] == meta[i].path;
      }
    }
    paths
  }

  /** The rows of one station's table as `load_station_df(path, var)` builds it, one per observation. */
  function StationTable(sf: StationFrame): seq<Row> {
    RawRows(sf.name, sf.lat, sf.lon, sf.frame.obs)
  }

  /** The loading loop: one table per path, in order; the first station that fails to load raises. */
  function LoadEach(disk: Disk, variable: string, paths: seq<string>): (r: Outcome<seq<seq<Row>>>)
    ensures r.Success? ==> |r.value| == |paths|
    ensures r.Success? ==> forall i :: 0 <= i < |paths| ==>
              LoadStationDf(disk, paths[i], variable, false).Success?
              && r.value[i] == StationTable(LoadStationDf(disk, paths[i], variable, false).value)
    ensures r.Failure? <==> exists i :: 0 <= i < |paths| && LoadStationDf(disk, paths[i], variable, false).Failure?
  {
    if |paths| == 0 then Success([])
    else
      var init :- LoadEach(disk, variable, paths[..|paths| - 1]);
      var sf :- LoadStationDf(disk, paths[|paths| - 1], variable, false);
      Success(init + [StationTable(sf)])
  }

  /** The date filter and `sort_index()` after the concatenation. */
  function WindowAndSort(rows: seq<Row>, years: seq<int>): (r: seq<Row>)
    requires |years| > 0
    ensures SortedByKey(r)
    ensures multiset(r) == multiset(Filter(rows, (x: Row) => InYearWindow(x.time, years)))
    ensures forall x :: x in r <==> x in rows && InYearWindow(x.time, years)
  {
    var kept := Filter(rows, (x: Row) => InYearWindow(x.time, years));
    var sorted := SortByKey(kept);
    assert forall x :: x in sorted <==> x in kept by {
      forall x ensures x in sorted <==> x in kept {
        assert x in sorted <==> x in multiset(sorted);
        assert x in kept <==> x in multiset(kept);
      }
    }
    sorted
  }

  /** `load_stations(var, years)`. The concatenation raises when no station is selected. */
  function LoadStations(cfg: StationConfig, disk: Disk, variable: string, years: YearsArg): (r: Outcome<seq<Row>>)
    ensures r.Success? ==> SortedByKey(r.value)
    ensures r.Success? ==> |NormaliseYears(years)| > 0
    ensures r.Success? ==> forall i :: 0 <= i < |r.value| ==> InYearWindow(r.value[i].time, NormaliseYears(years))
  {
    var ys := NormaliseYears(years);
    var meta :- GetMetadataDf(cfg, disk, variable);
    var paths := SelectedPaths(meta, ys);
    var parts :- LoadEach(disk, variable, paths);
    if |parts| == 0 then Failure(NoObjectsToConcatenate)
    else
      assert paths[0] in paths;
      var r := WindowAndSort(Flatten(parts), ys);
      assert forall i :: 0 <= i < |r| ==> InYearWindow(r[i].time, ys) by {
        forall i | 0 <= i < |r| ensures InYearWindow(r[i].time, ys) {
          assert r[i] in r;
        }
      }
      Success(r)
  }

  /** A station `load_stations` picks: its file is listed, scans, and its span meets a requested year. */
  predicate Selected(cfg: StationConfig, disk: Disk, variable: string, years: seq<int>, p: string) {
    && StationPaths(cfg, disk, variable).Success?
    && p in StationPaths(cfg, disk, variable).value
    && Scans(disk, p)
    && CoversRequestedYear(ScanStation(disk, p).value, years)
  }

  /** `x` is one of the rows the station file at `path` contributes: an observation of its series with
      the file's site name and coordinates. */
  predicate StationRow(disk: Disk, path: string, x: Row) {
    && path in disk.files
    && var f := disk.files[path];
    && f.siteName.Some? && f.lat.Some? && f.lon.Some?
    && x.name == f.siteName.value && x.lat == f.lat.value && x.lon == f.lon.value
    && exists o :: o in f.series && x.time == o.time && x.cell == Observed(o.value)
  }

  lemma SelectedPathsOfMetadata(cfg: StationConfig, disk: Disk, variable: string, years: seq<int>, p: string)
    requires StationPaths(cfg, disk, variable).Success?
    ensures p in SelectedPaths(GetMetadataDf(cfg, disk, variable).value, years) <==> Selected(cfg, disk, variable, years, p)
  {
    var meta := GetMetadataDf(cfg, disk, variable).value;
    GetMetadataDfRows(cfg, disk, variable, p);
    GetMetadataDfValues(cfg, disk, variable);
    if p in SelectedPaths(meta, years) {
      var i :| 0 <= i < |meta| && meta[i].path == p && CoversRequestedYear(meta[i].meta, years);
      assert Scans(disk, p) && meta[i].meta == ScanStation(disk, p).value;
    }
    if Selected(cfg, disk, variable, years, p) {
      var i :| 0 <= i < |meta| && meta[i].path == p;
      assert meta[i].meta == ScanStation(disk, p).value;
    }
  }

  lemma StationTableRows(disk: Disk, path: string, variable: string, x: Row)
    requires LoadStationDf(disk, path, variable, false).Success?
    ensures x in StationTable(LoadStationDf(disk, path, variable, false).value) <==> StationRow(disk, path, x)
  {
    var sf := LoadStationDf(disk, path, variable, false).value;
    var rows := StationTable(sf);
    var series := disk.files[path].series;
    if x in rows {
      var k :| 0 <= k < |rows| && rows[k] == x;
      assert series[k] in series;
    }
    if StationRow(disk, path, x) {
      var o :| o in series && x.time == o.time && x.cell == Observed(o.value);
      var k :| 0 <= k < |series| && series[k] == o;
      assert rows[k] == x;
    }
  }

  /** A successful call is the window-and-sort of the selected stations' tables. */
  lemma LoadStationsShape(cfg: StationConfig, disk: Disk, variable: string, years: YearsArg)
    requires LoadStations(cfg, disk, variable, years).Success?
    ensures var ys := NormaliseYears(years);
            && GetMetadataDf(cfg, disk, variable).Success?
            && var paths := SelectedPaths(GetMetadataDf(cfg, disk, variable).value, ys);
            && LoadEach(disk, variable, paths).Success?
            && |paths| > 0 && |ys| > 0
            && LoadStations(cfg, disk, variable, years).value == WindowAndSort(Flatten(LoadEach(disk, variable, paths).value), ys)
  {
  }

  /** The concatenated tables hold exactly the rows of the loaded stations. */
  lemma {:induction false} RowsOfTables(disk: Disk, variable: string, paths: seq<string>, parts: seq<seq<Row>>, x: Row)
    requires LoadEach(disk, variable, paths) == Success(parts)
    ensures x in Flatten(parts) <==> exists p :: p in paths && StationRow(disk, p, x)
  {
    FlattenMembership(parts, x);
    if x in Flatten(parts) {
      var i :| 0 <= i < |parts| && x in parts[i];
      StationTableRows(disk, paths[i], variable, x);
    }
    if exists p :: p in paths && StationRow(disk, p, x) {
      var p :| p in paths && StationRow(disk, p, x);
      var i :| 0 <= i < |paths| && paths[i] == p;
      StationTableRows(disk, p, variable, x);
      assert x in parts[i];
    }
  }

  /** The rows `load_stations` returns: exactly the rows of the selected stations that fall inside the
      window, each once per time it is stored, sorted by (time, station_name, latitude, longitude). */
  lemma LoadStationsRows(cfg: StationConfig, disk: Disk, variable: string, years: YearsArg, x: Row)
    requires LoadStations(cfg, disk, variable, years).Success?
    ensures var ys := NormaliseYears(years);
            |ys| > 0 &&
            (x in LoadStations(cfg, disk, variable, years).value <==>
               InYearWindow(x.time, ys) && exists p :: Selected(cfg, disk, variable, ys, p) && StationRow(disk, p, x))
  {
    var ys := NormaliseYears(years);
    LoadStationsShape(cfg, disk, variable, years);
    var paths := SelectedPaths(GetMetadataDf(cfg, disk, variable).value, ys);
    var parts := LoadEach(disk, variable, paths).value;
    RowsOfTables(disk, variable, paths, parts, x);
    assert (exists p :: p in paths && StationRow(disk, p, x)) <==>
           (exists p :: Selected(cfg, disk, variable, ys, p) && StationRow(disk, p, x)) by {
      forall p ensures p in paths <==> Selected(cfg, disk, variable, ys, p) {
        SelectedPathsOfMetadata(cfg, disk, variable, ys, p);
      }
    }
  }

  /** How the call ends once the listing has succeeded. */
  lemma LoadStationsCases(cfg: StationConfig, disk: Disk, variable: string, years: YearsArg)
    requires StationPaths(cfg, disk, variable).Success?
    ensures var paths := SelectedPaths(GetMetadataDf(cfg, disk, variable).value, NormaliseYears(years));
            var r := LoadStations(cfg, disk, variable, years);
            && (LoadEach(disk, variable, paths).Failure? ==> r.Failure?)
            && (LoadEach(disk, variable, paths).Success? && |paths| == 0 ==> r == Failure(NoObjectsToConcatenate))
            && (LoadEach(disk, variable, paths).Success? && |paths| > 0 ==> r.Success?)
  {
  }

  lemma SelectedAreListed(cfg: StationConfig, disk: Disk, variable: string, ys: seq<int>)
    requires StationPaths(cfg, disk, variable).Success?
    ensures forall p :: p in SelectedPaths(GetMetadataDf(cfg, disk, variable).value, ys) <==> Selected(cfg, disk, variable, ys, p)
  {
    forall p ensures p in SelectedPaths(GetMetadataDf(cfg, disk, variable).value, ys) <==> Selected(cfg, disk, variable, ys, p) {
      SelectedPathsOfMetadata(cfg, disk, variable, ys, p);
    }
  }

  /** Among scanned stations, loading fails exactly for one without a site name. */
  lemma LoadEachFails(disk: Disk, variable: string, paths: seq<string>)
    requires forall p :: p in paths ==> Scans(disk, p)
    ensures LoadEach(disk, variable, paths).Failure? <==> exists p :: p in paths && p in disk.files && disk.files[p].siteName.None?
  {
    if exists p :: p in paths && p in disk.files && disk.files[p].siteName.None? {
      var p :| p in paths && p in disk.files && disk.files[p].siteName.None?;
      var i :| 0 <= i < |paths| && paths[i] == p;
      assert LoadStationDf(disk, paths[i], variable, false).Failure?;
    }
    if LoadEach(disk, variable, paths).Failure? {
      var i :| 0 <= i < |paths| && LoadStationDf(disk, paths[i], variable, false).Failure?;
      assert Scans(disk, paths[i]);
    }
  }

  /** When the listing succeeds, the call raises exactly when no station is selected or a selected
      station has no site name; with none selected it is the concatenation that raises. */
  lemma LoadStationsFails(cfg: StationConfig, disk: Disk, variable: string, years: YearsArg)
    requires StationPaths(cfg, disk, variable).Success?
    ensures var ys := NormaliseYears(years);
            var r := LoadStations(cfg, disk, variable, years);
            && (r.Failure? <==>
                  (forall p :: !Selected(cfg, disk, variable, ys, p))
                  || exists p :: Selected(cfg, disk, variable, ys, p) && disk.files[p].siteName.None?)
            && ((forall p :: !Selected(cfg, disk, variable, ys, p)) ==> r == Failure(NoObjectsToConcatenate))
  {
    var ys := NormaliseYears(years);
    var paths := SelectedPaths(GetMetadataDf(cfg, disk, variable).value, ys);
    LoadStationsCases(cfg, disk, variable, years);
    SelectedAreListed(cfg, disk, variable, ys);
    LoadEachFails(disk, variable, paths);
    if |paths| > 0 {
      assert Selected(cfg, disk, variable, ys, paths[0]);
    }
  }

  /** The upper bound `f'{years[-1]}-12-31'` is midnight: readings later on the last day of the last
      year are dropped. */
  lemma LastDayAfterMidnightDropped(cfg: StationConfig, disk: Disk, variable: string, years: YearsArg, x: Row)
    requires LoadStations(cfg, disk, variable, years).Success?
    requires var ys := NormaliseYears(years);
             |ys| > 0 && x.time.year == ys[|ys| - 1] && x.time.month == 12 && x.time.day == 31 && x.time.second > 0
    ensures x !in LoadStations(cfg, disk, variable, years).value
  {
    LoadStationsRows(cfg, disk, variable, years, x);
  }

  /** The window runs from the first listed year to the last listed one: a year between them that the
      list leaves out still contributes its rows, and a list in decreasing order keeps no rows at all. */
  lemma WindowIsFirstToLast(ys: seq<int>, t: Instant)
    requires |ys| > 0
    ensures ys[0] <= t.year < ys[|ys| - 1] ==> InYearWindow(t, ys)
    ensures ys[0] > ys[|ys| - 1] ==> !InYearWindow(t, ys)
  {
    NotBeforeYearStart(t, ys[0]);
    AtOrBeforeLastDayStart(t, ys[|ys| - 1]);
  }

  lemma DecreasingYearsKeepNothing(cfg: StationConfig, disk: Disk, variable: string, ys: seq<int>)
    requires |ys| > 0 && ys[0] > ys[|ys| - 1]
    requires LoadStations(cfg, disk, variable, YearList(ys)).Success?
    ensures LoadStations(cfg, disk, variable, YearList(ys)).value == []
  {
    var r := LoadStations(cfg, disk, variable, YearList(ys)).value;
    if |r| > 0 {
      WindowIsFirstToLast(ys, r[0].time);
      assert false;
    }
  }

  /** A bare year behaves as the one-element list. */
  lemma OneYearIsSingletonList(cfg: StationConfig, disk: Disk, variable: string, y: int)
    ensures LoadStations(cfg, disk, variable, OneYear(y)) == LoadStations(cfg, disk, variable, YearList([y]))
  {
  }
}
