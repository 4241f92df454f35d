/** Station information by site name (`get_station_info`, `get_all_station_info`): number,
    coordinates and elevation of every station, per variable and merged over all variables. */
module StationInfo {
  import opened Wrappers
  import opened Dict
  import opened StationFiles

  /** The dictionary stored for one station; a `None` elevation is the NaN stored when
      `station_height` cannot be read. */
  datatype Info = Info(stationNo: string, lat: real, lon: real, elevation: Option<real>)

  /** `[self.load_station(path) for path in paths]`: every file is opened before any is read, so a file
      that cannot be opened raises before any attribute is looked up. */
  function OpenAll(disk: Disk, paths: seq<string>): (r: Outcome<seq<StationFile>>)
    ensures r.Success? <==> forall i :: 0 <= i < |paths| ==> paths[i] in disk.files
    ensures r.Success? ==> |r.value| == |paths| && forall i :: 0 <= i < |paths| ==> r.value[i] == disk.files[paths[i]]
    ensures r.Failure? ==> exists k :: 0 <= k < |paths| && paths[k] !in disk.files && r.error == OpenFailed(paths[k])
                                    && forall j :: 0 <= j < k ==> paths[j] in disk.files
  {
    if |paths| == 0 then Success([])
    else if paths[0] !in disk.files then Failure(OpenFailed(paths[0]))
    else
      var rest :- OpenAll(disk, paths[1..]);
      assert forall i :: 1 <= i < |paths| ==> paths[i] == paths[1..][i - 1];
      Success([disk.files[paths[0]]] + rest)
  }

  /** The loop body for one file: site name, agent number, latitude, then longitude, each of which
      may raise; an unreadable elevation becomes NaN instead. */
  function InfoOf(f: StationFile): (r: Outcome<Entry<string, Info>>)
    ensures r.Success? <==> f.siteName.Some? && f.agentNumber.Some? && f.lat.Some? && f.lon.Some?
    ensures r.Success? ==> r.value.key == f.siteName.value
    ensures r.Success? ==> r.value.value == Info(f.agentNumber.value, f.lat.value, f.lon.value, f.height)
    ensures r.Failure? ==> r.error.KeyError?
  {
    if f.siteName.None? then Failure(KeyError("site name"))
    else if f.agentNumber.None? then Failure(KeyError("agent_number"))
    else if f.lat.None? then Failure(KeyError("latitude"))
    else if f.lon.None? then Failure(KeyError("longitude"))
    else Success(Entry(f.siteName.value, Info(f.agentNumber.value, f.lat.value, f.lon.value, f.height)))
  }

  /** `station_info[name] = {...}` for each opened file in turn. */
  function InfoDict(files: seq<StationFile>): (r: Outcome<seq<Entry<string, Info>>>)
    ensures r.Success? <==> forall i :: 0 <= i < |files| ==> InfoOf(files[i]).Success?
    ensures r.Success? ==> DistinctKeys(r.value)
  {
    var es :- MapOutcome(files, InfoOf);
    Success(FromEntries(es))
  }

  /** The dictionary has one key per site name among the files, and no other. */
  lemma InfoDictKeys(files: seq<StationFile>, k: string)
    requires InfoDict(files).Success?
    ensures HasKey(InfoDict(files).value, k) <==> exists i :: 0 <= i < |files| && files[i].siteName == Some(k)
  {
    var es := MapOutcome(files, InfoOf).value;
    FromEntriesKeys(es, k);
    assert forall i :: 0 <= i < |files| ==> (es[i].key == k <==> files[i].siteName == Some(k));
  }

  /** Several files under one site name: the one listed last wins. */
  lemma InfoDictLastWins(files: seq<StationFile>, i: int)
    requires InfoDict(files).Success?
    requires 0 <= i < |files|
    requires forall j :: i < j < |files| ==> files[j].siteName != files[i].siteName
    ensures Get(InfoDict(files).value, files[i].siteName.value) == Some(InfoOf(files[i]).value.value)
  {
    var es := MapOutcome(files, InfoOf).value;
    assert forall j :: i < j < |files| ==> es[j].key != es[i].key;
    FromEntriesLastWins(es, i);
  }

  /** `get_station_info(var)`. */
  function GetStationInfo(cfg: StationConfig, disk: Disk, variable: string): (r: Outcome<seq<Entry<string, Info>>>)
    ensures r.Success? ==> StationPaths(cfg, disk, variable).Success?
    ensures r.Success? ==> DistinctKeys(r.value)
  {
    var paths :- StationPaths(cfg, disk, variable);
    var files :- OpenAll(disk, paths);
    InfoDict(files)
  }

  /** One key per site name of the listed files. */
  lemma GetStationInfoKeys(cfg: StationConfig, disk: Disk, variable: string, k: string)
    requires GetStationInfo(cfg, disk, variable).Success?
    ensures var paths := StationPaths(cfg, disk, variable).value;
            && (forall i :: 0 <= i < |paths| ==> paths[i] in disk.files)
            && (HasKey(GetStationInfo(cfg, disk, variable).value, k) <==>
                  exists i :: 0 <= i < |paths| && disk.files[paths[i]].siteName == Some(k))
  {
    var paths := StationPaths(cfg, disk, variable).value;
    var files := OpenAll(disk, paths).value;
    InfoDictKeys(files, k);
    assert forall i :: 0 <= i < |paths| ==> files[i] == disk.files[paths[i]];
  }

  /** `if k not in master: master[k] = v` for each entry of `info` in turn. */
  function MergeAbsent(master: seq<Entry<string, Info>>, info: seq<Entry<string, Info>>): (r: seq<Entry<string, Info>>)
    ensures DistinctKeys(master) ==> DistinctKeys(r)
    ensures |master| <= |r| && r[..|master|] == master
  {
    if |info| == 0 then master
    else
      var m := MergeAbsent(master, info[..|info| - 1]);
      var e := info[|info| - 1];
      assert DistinctKeys(m) && !HasKey(m, e.key) ==> DistinctKeys(m + [e]);
      SetIfAbsent(m, e.key, e.value)
  }

  /** A key already present keeps its value; a new key takes its first value in `info`. */
  lemma {:induction false} MergeAbsentGet(master: seq<Entry<string, Info>>, info: seq<Entry<string, Info>>, k: string)
    ensures Get(MergeAbsent(master, info), k) == if HasKey(master, k) then Get(master, k) else Get(info, k)
    decreases |info|
  {
    if |info| > 0 {
      var init := info[..|info| - 1];
      var e := info[|info| - 1];
      var m := MergeAbsent(master, init);
      MergeAbsentGet(master, init, k);
      assert info == init + [e];
      GetAppend(init, e, k);
      GetAppend(m, e, k);
    }
  }

  /** `get_station_info(var)` for each variable in turn; the first that raises ends the loop. */
  function InfoPerVariable(cfg: StationConfig, disk: Disk, variables: seq<string>): (r: Outcome<seq<seq<Entry<string, Info>>>>)
  {
    MapOutcome(variables, v => GetStationInfo(cfg, disk, v))
  }

  /** The merge loop of `get_all_station_info` over the per-variable dictionaries in order. */
  function MergeAll(infos: seq<seq<Entry<string, Info>>>): (r: seq<Entry<string, Info>>)
    ensures DistinctKeys(r)
  {
    if |infos| == 0 then []
    else MergeAbsent(MergeAll(infos[..|infos| - 1]), infos[|infos| - 1])
  }

  /** The merged dictionary holds exactly the keys of the dictionaries merged. */
  lemma {:induction false} MergeAllKeys(infos: seq<seq<Entry<string, Info>>>, k: string)
    ensures HasKey(MergeAll(infos), k) <==> exists i :: 0 <= i < |infos| && HasKey(infos[i], k)
    decreases |infos|
  {
    if |infos| > 0 {
      var init := infos[..|infos| - 1];
      MergeAllKeys(init, k);
      MergeAbsentGet(MergeAll(init), infos[|infos| - 1], k);
      assert forall i :: 0 <= i < |init| ==> init[i] == infos[i];
    }
  }

  /** A key takes its value from the first dictionary that has it. */
  lemma {:induction false} MergeAllFirstWins(infos: seq<seq<Entry<string, Info>>>, i: int, k: string)
    requires 0 <= i < |infos| && HasKey(infos[i], k)
    requires forall j :: 0 <= j < i ==> !HasKey(infos[j], k)
    ensures Get(MergeAll(infos), k) == Get(infos[i], k)
    decreases |infos|
  {
    var init := infos[..|infos| - 1];
    MergeAbsentGet(MergeAll(init), infos[|infos| - 1], k);
    assert forall j :: 0 <= j < |init| ==> init[j] == infos[j];
    if i < |infos| - 1 {
      MergeAllFirstWins(init, i, k);
    } else {
      MergeAllKeys(init, k);
    }
  }

  /** `get_all_station_info()` over `VARIABLE_OPTIONS`, given here as the list of variables. */
  function GetAllStationInfo(cfg: StationConfig, disk: Disk, variables: seq<string>): (r: Outcome<seq<Entry<string, Info>>>)
    ensures r.Success? <==> forall i :: 0 <= i < |variables| ==> GetStationInfo(cfg, disk, variables[i]).Success?
    ensures r.Success? ==> DistinctKeys(r.value)
  {
    var infos :- InfoPerVariable(cfg, disk, variables);
    Success(MergeAll(infos))
  }

  /** The information `get_station_info(v)` gives holds site name `k`. */
  predicate Reports(cfg: StationConfig, disk: Disk, v: string, k: string) {
    GetStationInfo(cfg, disk, v).Success? && HasKey(GetStationInfo(cfg, disk, v).value, k)
  }

  /** The merged dictionary holds a station exactly when some variable reports it. */
  lemma AllStationInfoKeys(cfg: StationConfig, disk: Disk, variables: seq<string>, k: string)
    requires GetAllStationInfo(cfg, disk, variables).Success?
    ensures HasKey(GetAllStationInfo(cfg, disk, variables).value, k) <==>
              exists v :: v in variables && Reports(cfg, disk, v, k)
  {
    var infos := InfoPerVariable(cfg, disk, variables).value;
    MergeAllKeys(infos, k);
    assert forall i :: 0 <= i < |variables| ==> (HasKey(infos[i], k) <==> Reports(cfg, disk, variables[i], k));
    if exists v :: v in variables && Reports(cfg, disk, v, k) {
      var v :| v in variables && Reports(cfg, disk, v, k);
      var i :| 0 <= i < |variables| && variables[i] == v;
      assert HasKey(infos[i], k);
    }
  }

  /** A station reported for several variables keeps the information of the first variable, in
      list order, that reports it. */
  lemma FirstVariableWins(cfg: StationConfig, disk: Disk, variables: seq<string>, i: int, k: string)
    requires GetAllStationInfo(cfg, disk, variables).Success?
    requires 0 <= i < |variables|
    requires HasKey(GetStationInfo(cfg, disk, variables[i]).value, k)
    requires forall j :: 0 <= j < i ==> !HasKey(GetStationInfo(cfg, disk, variables[j]).value, k)
    ensures Get(GetAllStationInfo(cfg, disk, variables).value, k) == Get(GetStationInfo(cfg, disk, variables[i]).value, k)
  {
    var infos := InfoPerVariable(cfg, disk, variables).value;
    MergeAllFirstWins(infos, i, k);
  }
}
