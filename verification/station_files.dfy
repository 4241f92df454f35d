/** Station files (`ProcessStations` in nzdownscale/dataprocess/stations.py): where they are, what a
    file holds, the best-effort metadata scan, and one station loaded as a table. */
module StationFiles {
  import opened Wrappers
  import opened Text
  import opened Seqs
  import opened Files
  import opened Calendar
  import opened Dict

  /** One observation of the file's variable. */
  datatype Obs = Obs(time: Instant, value: real)

  /** A station NetCDF file, reduced to what the code reads from it. `None` marks an attribute or a
      coordinate that is missing or cannot be converted to a number. */
  datatype StationFile = StationFile(
    siteName: Option<string>,      // attrs['site name']
    agentNumber: Option<string>,   // attrs['agent_number']
    lon: Option<real>,             // float(ds.longitude)
    lat: Option<real>,             // float(ds.latitude)
    height: Option<real>,          // float(ds['station_height'])
    series: seq<Obs>)              // the time coordinate with the variable's values, in file order

  /** The directories the station code lists, and the files `xr.open_dataset` can open. */
  datatype Disk = Disk(tree: Tree, files: map<string, StationFile>)

  datatype LatLon = LatLon(lat: real, lon: real)

  /** `DATA_PATHS['stations']['parent']`, the `subdir` of each `VAR_STATIONS` entry, and `STATION_LATLON`. */
  datatype StationConfig = StationConfig(parent: string, subdirs: map<string, string>, latlon: map<string, LatLon>)

  /** `xr.open_dataset(path)`. */
  function OpenStation(disk: Disk, path: string): (r: Outcome<StationFile>)
    ensures r.Success? <==> path in disk.files
    ensures r.Failure? ==> r.error == OpenFailed(path)
  {
    if path in disk.files then Success(disk.files[path]) else Failure(OpenFailed(path))
  }

  /** `get_parent_path`: `f'{DATA_PATHS["stations"]["parent"]}/{VAR_STATIONS[var]["subdir"]}'`. */
  function ParentPath(cfg: StationConfig, variable: string): (r: Outcome<string>)
    ensures r.Success? <==> variable in cfg.subdirs
    ensures r.Success? ==> r.value == cfg.parent + "/" + cfg.subdirs[variable]
    ensures r.Failure? ==> r.error == KeyError(variable)
  {
    if variable in cfg.subdirs then Success(Join(cfg.parent, cfg.subdirs[variable])) else Failure(KeyError(variable))
  }

  /** `get_path_all_stations`: one path `parent/name` per listed entry, in listing order. */
  function StationPaths(cfg: StationConfig, disk: Disk, variable: string): (r: Outcome<seq<string>>)
    ensures r.Success? <==> variable in cfg.subdirs && Join(cfg.parent, cfg.subdirs[variable]) in disk.tree.dirs
    ensures r.Success? ==>
              var parent := Join(cfg.parent, cfg.subdirs[variable]);
              var names := disk.tree.dirs[parent];
              |r.value| == |names| && forall i :: 0 <= i < |names| ==> r.value[i] == parent + "/" + names[i]
  {
    var parent :- ParentPath(cfg, variable);
    var names :- Listdir(disk.tree, parent);
    Success(JoinAll(parent, names))
  }

  /** `path.split('.nc')[0].split('/')[-1]`: the `station_id` column of `get_metadata_df`. */
  function StationId(path: string): string {
    AfterLast(BeforeFirst(path, ".nc"), '/')
  }

  /** The id recovers the listed file name without its extension, whenever the parent path holds no
      `.nc`, and the name holds no `/` and ends in its one and only `.nc`. */
  lemma StationIdOfPath(parent: string, name: string)
    requires forall j :: !OccursAt(parent, ".nc", j)
    requires '/' !in name
    requires EndsWith(name, ".nc")
    requires forall j :: OccursAt(name, ".nc", j) ==> j == |name| - 3
    ensures StationId(Join(parent, name)) == name[..|name| - 3]
  {
    var full := Join(parent, name);
    var k := |parent| + 1 + |name| - 3;
    var stem := name[..|name| - 3];
    assert full[k..k + 3] == name[|name| - 3..];
    assert OccursAt(full, ".nc", k);
    forall j | 0 <= j < k ensures !OccursAt(full, ".nc", j) {
      if j + 3 <= |parent| {
        assert full[j..j + 3] == parent[j..j + 3];
        assert !OccursAt(parent, ".nc", j);
      } else if j <= |parent| {
        assert full[j..j + 3][|parent| - j] == '/';
      } else {
        var j' := j - |parent| - 1;
        assert full[j..j + 3] == name[j'..j' + 3];
        assert !OccursAt(name, ".nc", j');
      }
    }
    var before := BeforeFirst(full, ".nc");
    assert |before| == k;
    assert before == parent + "/" + stem;
    AfterLastOfJoin(parent, stem);
  }

  /** The last `/`-segment of `a/b` is `b` when `b` has no `/`. */
  lemma {:induction false} AfterLastOfJoin(a: string, b: string)
    requires '/' !in b
    ensures AfterLast(a + "/" + b, '/') == b
    decreases |b|
  {
    if |b| > 0 {
      var b' := b[..|b| - 1];
      AfterLastOfJoin(a, b');
      assert (a + "/" + b)[..|a + "/" + b| - 1] == a + "/" + b';
      assert b' + [b[|b| - 1]] == b;
    } else {
      assert a + "/" + b == (a + "/" + b)[..|a| + 1];
    }
  }

  /** The per-station metadata of `get_metadata_dict`. */
  datatype Meta = Meta(startYear: int, endYear: int, durationYears: int, lon: real, lat: real)

  /** The body of the `try` block for one file: open it, read its coordinates, and take the years of
      the FIRST and LAST time entries. Each step may raise. */
  function ScanStation(disk: Disk, path: string): (r: Outcome<Meta>)
    ensures r.Success? <==>
              path in disk.files && disk.files[path].lon.Some? && disk.files[path].lat.Some?
              && |disk.files[path].series| > 0
    ensures r.Success? ==>
              var s := disk.files[path].series;
              && r.value.startYear == s[0].time.year
              && r.value.endYear == s[|s| - 1].time.year
              && r.value.durationYears == r.value.endYear - r.value.startYear
    ensures r.Failure? ==>
              r.error == if path !in disk.files then OpenFailed(path)
                         else if disk.files[path].lon.None? then AttributeError("longitude")
                         else if disk.files[path].lat.None? then AttributeError("latitude")
                         else IndexError
  {
    var f :- OpenStation(disk, path);
    if f.lon.None? then Failure(AttributeError("longitude"))
    else if f.lat.None? then Failure(AttributeError("latitude"))
    else if |f.series| == 0 then Failure(IndexError)
    else
      var startYear := f.series[0].time.year;
      var endYear := f.series[|f.series| - 1].time.year;
      Success(Meta(startYear, endYear, endYear - startYear, f.lon.value, f.lat.value))
  }

  predicate Scans(disk: Disk, path: string) {
    ScanStation(disk, path).Success?
  }

  /** The loop of `get_metadata_dict`: a file whose scan raises is skipped (`except: pass`), every other
      file is recorded under its path. */
  function MetadataDict(disk: Disk, paths: seq<string>): (d: seq<Entry<string, Meta>>)
    ensures DistinctKeys(d)
    ensures forall k :: HasKey(d, k) <==> k in paths && Scans(disk, k)
    ensures forall i :: 0 <= i < |d| ==> Scans(disk, d[i].key) && d[i].value == ScanStation(disk, d[i].key).value
  {
    if |paths| == 0 then []
    else
      var init := paths[..|paths| - 1];
      var d := MetadataDict(disk, init);
      var p := paths[|paths| - 1];
      assert paths == init + [p];
      if Scans(disk, p) then Set(d, p, ScanStation(disk, p).value) else d
  }

  /** For a listing without repeats (as `os.listdir` gives), the dictionary keeps listing order. */
  lemma {:induction false} MetadataDictOrder(disk: Disk, paths: seq<string>)
    requires forall i, j :: 0 <= i < j < |paths| ==> paths[i] != paths[j]
    ensures Keys(MetadataDict(disk, paths)) == Filter(paths, (p: string) => Scans(disk, p))
  {
    if |paths| > 0 {
      var init := paths[..|paths| - 1];
      var p := paths[|paths| - 1];
      MetadataDictOrder(disk, init);
      assert p !in init;
      assert !HasKey(MetadataDict(disk, init), p);
      if Scans(disk, p) {
        KeysOfSet(MetadataDict(disk, init), p, ScanStation(disk, p).value);
      }
    }
  }

  /** One row of `get_metadata_df`: the dictionary entry plus its `station_id`. */
  datatype MetaRow = MetaRow(path: string, meta: Meta, stationId: string)

  function MetadataRows(d: seq<Entry<string, Meta>>): (rows: seq<MetaRow>)
    ensures |rows| == |d|
    ensures forall i :: 0 <= i < |d| ==>
              rows[i].path == d[i].key && rows[i].meta == d[i].value && rows[i].stationId == StationId(d[i].key)
  {
    Map(d, (e: Entry<string, Meta>) => MetaRow(e.key, e.value, StationId(e.key)))
  }

  /** `get_metadata_df(var)`: listing the parent directory may raise, a single file may not. */
  function GetMetadataDf(cfg: StationConfig, disk: Disk, variable: string): (r: Outcome<seq<MetaRow>>)
    ensures r.Success? <==> StationPaths(cfg, disk, variable).Success?
  {
    var paths :- StationPaths(cfg, disk, variable);
    Success(MetadataRows(MetadataDict(disk, paths)))
  }

  /** The metadata table holds one row per station path whose scan succeeds, and no other. */
  lemma GetMetadataDfRows(cfg: StationConfig, disk: Disk, variable: string, p: string)
    requires StationPaths(cfg, disk, variable).Success?
    ensures var rows := GetMetadataDf(cfg, disk, variable).value;
            p in StationPaths(cfg, disk, variable).value && Scans(disk, p) <==>
              exists i :: 0 <= i < |rows| && rows[i].path == p
  {
    var paths := StationPaths(cfg, disk, variable).value;
    var d := MetadataDict(disk, paths);
    assert GetMetadataDf(cfg, disk, variable).value == MetadataRows(d);
    assert HasKey(d, p) <==> p in paths && Scans(disk, p);
    RowPaths(d, p);
  }

  lemma RowPaths(d: seq<Entry<string, Meta>>, p: string)
    ensures HasKey(d, p) <==> exists i :: 0 <= i < |MetadataRows(d)| && MetadataRows(d)[i].path == p
  {
    var rows := MetadataRows(d);
    assert forall i :: 0 <= i < |rows| ==> rows[i].path == d[i].key;
  }

  /** Each row of the metadata table holds its file's scanned values and the id derived from its path. */
  lemma GetMetadataDfValues(cfg: StationConfig, disk: Disk, variable: string)
    requires StationPaths(cfg, disk, variable).Success?
    ensures var rows := GetMetadataDf(cfg, disk, variable).value;
            forall i :: 0 <= i < |rows| ==>
              && Scans(disk, rows[i].path)
              && rows[i].meta == ScanStation(disk, rows[i].path).value
              && rows[i].stationId == StationId(rows[i].path)
  {
  }

  /** A file that fails to scan is left out and does not stop the scan of the others. */
  lemma CorruptFileSkipped(disk: Disk, paths: seq<string>, bad: string)
    requires bad in paths && !Scans(disk, bad)
    ensures !HasKey(MetadataDict(disk, paths), bad)
    ensures forall p :: p in paths && p != bad && Scans(disk, p) ==> HasKey(MetadataDict(disk, paths), p)
  {
  }

  /** The years come from the first and last time entries as stored, not from the earliest and latest:
      a series stored out of order yields a start after its end and a negative duration. */
  lemma FirstAndLastNotMinMax(disk: Disk, path: string, a: Obs, b: Obs)
    requires path in disk.files
    requires disk.files[path].lon.Some? && disk.files[path].lat.Some?
    requires disk.files[path].series == [a, b] && a.time.year == 2001 && b.time.year == 1999
    ensures ScanStation(disk, path).Success?
    ensures ScanStation(disk, path).value.startYear == 2001
    ensures ScanStation(disk, path).value.durationYears == -2
  {
  }

  /** For a series stored in chronological order, the first and last entries do give the earliest and
      latest years: every observation's year lies in `startYear..endYear` and the duration is not
      negative. */
  lemma ChronologicalSpan(disk: Disk, path: string)
    requires Scans(disk, path)
    requires var s := disk.files[path].series;
             forall i, j :: 0 <= i < j < |s| ==> AtOrBefore(s[i].time, s[j].time)
    ensures var m := ScanStation(disk, path).value;
            var s := disk.files[path].series;
            && m.durationYears >= 0
            && forall i :: 0 <= i < |s| ==> m.startYear <= s[i].time.year <= m.endYear
  {
    var s := disk.files[path].series;
    forall i | 0 <= i < |s| ensures s[0].time.year <= s[i].time.year <= s[|s| - 1].time.year {
      if 0 < i {
        assert AtOrBefore(s[0].time, s[i].time);
      }
      if i < |s| - 1 {
        assert AtOrBefore(s[i].time, s[|s| - 1].time);
      }
    }
  }

  /** How `resample('D')` combines the values of one day. */
  datatype Aggregator = Mean | Sum

  /** The aggregator `load_stations_time` resamples with: sum for precipitation, mean for the rest. */
  function DailyAggregatorForTime(variable: string): (a: Aggregator)
    ensures a == Sum <==> variable == "precipitation"
  {
    if variable == "precipitation" then Sum else Mean
  }

  /** The aggregator `load_station_df` resamples with, whatever the variable. */
  function DailyAggregatorForStation(variable: string): (a: Aggregator)
    ensures a == Mean
  {
    Mean
  }

  /** A station's series as a pandas frame indexed by time: the raw observations, or their daily
      resampling, kept symbolic (which aggregator over which observations). */
  datatype Frame = RawFrame(obs: seq<Obs>) | DailyFrame(agg: Aggregator, obs: seq<Obs>)

  /** A table cell: an observed value, or the aggregate of the values observed on one day. */
  datatype Cell = Observed(value: real) | Aggregated(agg: Aggregator, inputs: seq<real>)

  /** One row of a stations table. */
  datatype Row = Row(time: Instant, name: string, lat: real, lon: real, cell: Cell)

  /** A station's frame with the constant `longitude`, `latitude` and `station_name` columns. */
  datatype StationFrame = StationFrame(frame: Frame, name: string, lat: real, lon: real)

  /** `load_station_df(filepath, var, daily)`: open the file, resample by the daily mean when asked,
      then attach the coordinates and the site name; each step may raise. */
  function LoadStationDf(disk: Disk, path: string, variable: string, daily: bool): (r: Outcome<StationFrame>)
    ensures r.Success? <==>
              path in disk.files && disk.files[path].lon.Some? && disk.files[path].lat.Some?
              && disk.files[path].siteName.Some?
    ensures r.Success? ==>
              var f := disk.files[path];
              && r.value.frame.obs == f.series
              && (daily <==> r.value.frame.DailyFrame?)
              && (daily ==> r.value.frame.agg == Mean)
              && r.value.name == f.siteName.value && r.value.lat == f.lat.value && r.value.lon == f.lon.value
    ensures r.Failure? ==>
              r.error == if path !in disk.files then OpenFailed(path)
                         else if disk.files[path].lon.None? then AttributeError("longitude")
                         else if disk.files[path].lat.None? then AttributeError("latitude")
                         else KeyError("site name")
  {
    var f :- OpenStation(disk, path);
    var frame := if daily then DailyFrame(DailyAggregatorForStation(variable), f.series) else RawFrame(f.series);
    if f.lon.None? then Failure(AttributeError("longitude"))
    else if f.lat.None? then Failure(AttributeError("latitude"))
    else if f.siteName.None? then Failure(KeyError("site name"))
    else Success(StationFrame(frame, f.siteName.value, f.lat.value, f.lon.value))
  }

  /** The rows of a station's raw series, one per observation, in file order. */
  function RawRows(name: string, lat: real, lon: real, obs: seq<Obs>): (rows: seq<Row>)
    ensures |rows| == |obs|
    ensures forall i :: 0 <= i < |obs| ==> rows[i] == Row(obs[i].time, name, lat, lon, Observed(obs[i].value))
  {
    Map(obs, (o: Obs) => Row(o.time, name, lat, lon, Observed(o.value)))
  }
}
