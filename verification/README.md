# deepsensorNZ data selection and training bookkeeping, in Dafny

A functional model of the parts of `nzdownscale` (deepsensorNZ) that have exact selection and
bookkeeping rules. These are the station-file scans and filters of `ProcessStations`, the ERA5 file
lookup of `ProcessERA5.get_filenames`, and the date split, model naming and epoch loop of `Train`. Each
is stated as pure functions over immutable data, with lemmas about what they return.

The model uses these abstractions:

- **Directory trees.** A tree maps each directory path to its listing, in the order the operating
  system gives it (`Files`).
- **Station files.** Each station file is a record of the attributes and coordinates the code reads,
  plus its time series (`StationFiles.StationFile`). A missing or unreadable attribute is `None`.
- **Exceptions.** A Python exception is a `Failure` carrying the kind of error raised: `FileNotFound`
  from `os.listdir`, `OpenFailed` from `xr.open_dataset`, `KeyError`, `AttributeError` from
  `ds.longitude` / `ds.latitude`, `IndexError`, `TypeError`, an unbound local, or `pd.concat` of
  nothing.
- **Dictionaries.** Python dictionaries are insertion-ordered association lists (`Dict`). `d[k] = v`
  overwrites in place, and `if k not in d` keeps the first value.
- **Tables.** pandas tables are sequences of rows. A daily resampling is kept symbolic: a cell records
  the aggregator and the values of its day, and no arithmetic is done on them.
- **Losses.** A loss is `Option<real>`, with `None` standing for NaN. `np.mean` of an empty list is
  NaN.

Modules:

| module | file | what it covers |
|---|---|---|
| `Wrappers` | wrappers.dfy | `Option`, `Result`, the error kinds, and a comprehension whose items may raise |
| `Calendar` | calendar.dfy | calendar instants, chronological order, and the meaning of pandas' partial-date strings |
| `Text` | text.dfy | `find`, `split(...)[0]`, `split(...)[-1]`, `in`, `str(int)` and `int(str)` |
| `Seqs` | seqs.dfy | filter, map and concatenation of sequences |
| `Dict` | dict.dfy | ordered dictionaries |
| `Files` | files.dfy | `os.listdir`, and `glob` with the patterns `dir/*.nc` and `dir/*/*.nc` |
| `RowOrder` | row_order.dfy | Python string order, and the `sort_index()` order on stations tables |
| `StationFiles` | station_files.dfy | station paths, `station_id`, the metadata scan, `load_station_df`, the daily aggregator |
| `StationYears` | station_years.dfy | `load_stations(var, years)` |
| `StationTimes` | station_times.dfy | `load_stations_time(var, time, remove_stations, keep_stations, daily)` |
| `StationInfo` | station_info.dfy | `get_station_info` and `get_all_station_info` |
| `Era5` | era5.dfy | `ProcessERA5.get_filenames` |
| `TrainDates` | train_dates.dfy | the date windows and the stride of `Train.setup_task_loader` |
| `ModelSetup` | model_setup.dfy | `Train.initialise_model` keyword arguments, and the model name of `train_model` |
| `TrainLoop` | train_loop.dfy | the epoch loop of `Train.train_model`, `compute_val_loss`, and the metadata it saves |

Things the code does, and the model follows, where the code differs from what its documentation
describes:

- **The last day of the window.** `load_stations` keeps rows with `time <= 'YYYY-12-31'`. Since that
  string means midnight, readings later on 31 December of the last year are dropped, so the window
  does not run to the end of that year. The window bounds are the first and last list elements, not
  the smallest and largest.
- **Start and end years.** `start_year` and `end_year` of the metadata scan are the years of the first
  and last stored times, not the earliest and latest.
- **Station filters.** When both `remove_stations` and `keep_stations` are given, only
  `remove_stations` applies. It removes by coordinates, not by name.

## Model

| member | source | states |
|---|---|---|
| Text.BeforeFirst | nzdownscale/dataprocess/stations.py:92 | `split('.nc')[0]` is the prefix up to the first `.nc`, or the whole string when there is none |
| Text.AfterLast | nzdownscale/dataprocess/stations.py:92 | `split('/')[-1]` is the longest suffix without `/`; it is preceded by a `/` when it is not the whole string |
| Text.IntToStringRoundTrip | nzdownscale/dataprocess/era5.py:57 | `int(str(y)) == y`, so distinct years give distinct directory names and substrings |
| Dict.Set | nzdownscale/dataprocess/stations.py:199-202 | `d[k] = v` keeps an existing key's position with the new value, appends a new key, and leaves other entries and key uniqueness intact |
| Dict.GetSet | nzdownscale/dataprocess/stations.py:199-202 | after `d[k] = v`, key `k` reads `v` and every other key reads as before |
| Dict.FromEntriesLastWins | nzdownscale/dataprocess/stations.py:188-202 | filling a dictionary entry by entry keeps for each key the value of its last entry |
| Files.Listdir | nzdownscale/dataprocess/stations.py:49 | `os.listdir` raises FileNotFound exactly for a directory that is not there |
| Files.GlobNcMembers | nzdownscale/dataprocess/era5.py:61 | `glob('dir/*.nc')` finds exactly the visible `.nc` entries listed in `dir`, joined to `dir` |
| Files.GlobNestedNcMembers | nzdownscale/dataprocess/era5.py:55 | `glob('dir/*/*.nc')` finds exactly the `*.nc` matches of every visible sub-directory of `dir` |
| RowOrder.SortByKey | nzdownscale/dataprocess/stations.py:324-327 | `sort_index()` returns a permutation of the rows ordered by (time, station_name, latitude, longitude) |
| StationFiles.OpenStation | nzdownscale/dataprocess/stations.py:53-56 | opening a station file succeeds exactly when the file can be opened, and otherwise fails with `OpenFailed` for that path |
| StationFiles.ParentPath | nzdownscale/dataprocess/stations.py:21-24 | the parent path is `parent/subdir` of the variable; a variable without a subdirectory raises KeyError |
| StationFiles.StationPaths | nzdownscale/dataprocess/stations.py:45-50 | one path `parent/name` per listing entry, in listing order; fails exactly when the variable or its directory is missing |
| StationFiles.StationIdOfPath | nzdownscale/dataprocess/stations.py:91-92 | `station_id` recovers the file name without `.nc` when the name has no `/` and ends in its only `.nc`, and the parent has none |
| StationFiles.ScanStation | nzdownscale/dataprocess/stations.py:104-116 | one file's scan succeeds exactly when the file opens, has both coordinates and a non-empty series; the years are those of the first and last stored times, and the duration is their difference; a failure is `OpenFailed`, then AttributeError for a missing longitude or latitude, then IndexError for an empty series |
| StationFiles.ChronologicalSpan | nzdownscale/dataprocess/stations.py:123-125 | for a series stored in time order, every observation's year lies between the start and end years, and the duration is not negative |
| StationFiles.MetadataDict | nzdownscale/dataprocess/stations.py:96-120 | the scan's keys are exactly the listed paths whose scan succeeds, once each, each holding its own scan |
| StationFiles.MetadataDictOrder | nzdownscale/dataprocess/stations.py:101-118 | for a listing without repeats, the keys are the successfully scanned paths in listing order |
| StationFiles.CorruptFileSkipped | nzdownscale/dataprocess/stations.py:104-118 | a file whose scan raises is absent, and every other scannable file is still recorded |
| StationFiles.FirstAndLastNotMinMax | nzdownscale/dataprocess/stations.py:123-125 | a series stored out of order gives a start after the end and a negative duration |
| StationFiles.GetMetadataDf | nzdownscale/dataprocess/stations.py:85-93 | the metadata table fails only when listing the station directory fails |
| StationFiles.GetMetadataDfRows | nzdownscale/dataprocess/stations.py:85-93 | the table has a row for a path exactly when the path is listed and its scan succeeds |
| StationFiles.GetMetadataDfValues | nzdownscale/dataprocess/stations.py:89-92 | each row holds its file's scanned values and the `station_id` derived from its path |
| StationFiles.LoadStationDf | nzdownscale/dataprocess/stations.py:59-76 | loading succeeds exactly when the file opens with coordinates and a site name; the frame holds the file's series, resampled by the mean only when `daily`, with the file's name and coordinates; a failure is `OpenFailed`, then AttributeError for longitude and latitude (`get_lon_lat`), then KeyError for the site name |
| StationYears.OneYearIsSingletonList | nzdownscale/dataprocess/stations.py:305-307 | `load_stations(var, y)` and `load_stations(var, [y])` agree |
| StationYears.SelectedPaths | nzdownscale/dataprocess/stations.py:310-311 | a path is selected exactly when its row's `start_year..end_year` contains some requested year |
| StationYears.SelectedPathsOfMetadata | nzdownscale/dataprocess/stations.py:309-311 | a path is selected exactly when it is listed, its scan succeeds, and its span meets a requested year |
| StationYears.SelectedAreListed | nzdownscale/dataprocess/stations.py:309-311 | the same for every path at once |
| StationYears.LoadEach | nzdownscale/dataprocess/stations.py:313-316 | one table per selected path, in order, each the station's rows; fails exactly when some station fails to load |
| StationYears.LoadEachFails | nzdownscale/dataprocess/stations.py:313-316 | among stations whose scan succeeded, loading fails exactly for one without a site name |
| StationYears.StationTableRows | nzdownscale/dataprocess/stations.py:66-76 | a station's table holds exactly its observations, with its site name and coordinates |
| StationYears.RowsOfTables | nzdownscale/dataprocess/stations.py:313-319 | the concatenated tables hold exactly the rows of the loaded stations |
| StationYears.WindowAndSort | nzdownscale/dataprocess/stations.py:321-327 | the date filter then `sort_index()` gives a sorted permutation of exactly the rows inside the window |
| StationYears.LoadStations | nzdownscale/dataprocess/stations.py:305-329 | a result is sorted, its year list is non-empty, and every row is inside the window |
| StationYears.LoadStationsShape | nzdownscale/dataprocess/stations.py:305-329 | a successful call is the window and sort of the selected stations' concatenated tables |
| StationYears.LoadStationsRows | nzdownscale/dataprocess/stations.py:305-329 | a row is returned exactly when it is inside the window and belongs to a selected station |
| StationYears.LoadStationsCases | nzdownscale/dataprocess/stations.py:313-319 | a failed load raises, no selected station raises the concatenation error, otherwise the call succeeds |
| StationYears.LoadStationsFails | nzdownscale/dataprocess/stations.py:309-319 | once the listing succeeds, the call raises exactly when nothing is selected or a selected station lacks a site name |
| StationYears.LastDayAfterMidnightDropped | nzdownscale/dataprocess/stations.py:322-323 | readings after midnight on 31 December of the last year are never returned |
| StationYears.WindowIsFirstToLast | nzdownscale/dataprocess/stations.py:322-323 | years between the first and last list elements are inside the window even when unlisted; a decreasing list admits nothing |
| StationYears.DecreasingYearsKeepNothing | nzdownscale/dataprocess/stations.py:321-323 | with a year list in decreasing order a successful call returns no rows |
| StationTimes.Dedup | nzdownscale/dataprocess/stations.py:260 | the intersection labels are the requested times without repeats |
| StationTimes.RawRestrictMembers | nzdownscale/dataprocess/stations.py:260 | the `.loc` restriction keeps exactly the observations at requested times |
| StationTimes.RawTimeRows | nzdownscale/dataprocess/stations.py:253-264 | every raw row carries the station's name and coordinates, a requested time and an observed value at that time |
| StationTimes.RawTimeRowsMembers | nzdownscale/dataprocess/stations.py:253-264 | the raw rows are exactly the station's observations at requested times, with its name and coordinates |
| StationTimes.DailyTimeRows | nzdownscale/dataprocess/stations.py:255-264 | daily rows are requested midnights inside the station's span, once each, each aggregating that day's values |
| StationTimes.DailyTimeRowsComplete | nzdownscale/dataprocess/stations.py:255-264 | conversely, every requested midnight inside the span has its row, aggregating that day's values |
| StationTimes.StationTimeRows | nzdownscale/dataprocess/stations.py:253-264 | a station's rows are all at requested times |
| StationTimes.LoadAtTimes | nzdownscale/dataprocess/stations.py:250-265 | one path succeeds exactly when the file opens with a site name, plus coordinates when it qualifies; it contributes a table exactly when its raw times meet the request, and that table is empty in the daily case when no requested time is a midnight inside its span; a failure is `OpenFailed`, KeyError for the site name, or AttributeError for longitude then latitude |
| StationTimes.LoadAtTimesRaw | nzdownscale/dataprocess/stations.py:250-265 | without resampling, one path contributes exactly its observations at requested times |
| StationTimes.DailyCells | nzdownscale/dataprocess/stations.py:255-260 | with `daily`, each row is a requested midnight in the span, aggregating that day by sum for precipitation and mean otherwise, and every requested midnight in the span has a row |
| StationTimes.LoadAllAtTimes | nzdownscale/dataprocess/stations.py:248-265 | the loop fails exactly when some path fails, and yields at most one table per path |
| StationTimes.LoadAllAtTimesEmpty | nzdownscale/dataprocess/stations.py:248-265 | no table is collected exactly when no listed station holds a requested time |
| StationTimes.LoadAllAtTimesRequested | nzdownscale/dataprocess/stations.py:260 | every collected row is at a requested time |
| StationTimes.LoadAllRawRows | nzdownscale/dataprocess/stations.py:248-269 | the concatenated raw tables hold exactly the listed stations' observations at requested times |
| StationTimes.LoadAllReadable | nzdownscale/dataprocess/stations.py:249-265 | when every file opens with a name and coordinates, the loop does not raise |
| StationTimes.RemoveStations | nzdownscale/dataprocess/stations.py:271-276 | fails with KeyError for the first name without coordinates; otherwise keeps exactly the rows not at any removed station's coordinates |
| StationTimes.KeepStationsMembers | nzdownscale/dataprocess/stations.py:277-285 | the kept rows are exactly the rows whose station name is in the keep list |
| StationTimes.KeepStationsTwice | nzdownscale/dataprocess/stations.py:278-284 | a keep list given twice yields the kept rows twice |
| StationTimes.FilterStations | nzdownscale/dataprocess/stations.py:271-285 | removal applies whenever names are removed, the keep list only when none are, and neither adds rows |
| StationTimes.RemoveByCoordinates | nzdownscale/dataprocess/stations.py:272-275 | any row at a removed station's coordinates is dropped, whatever its name |
| StationTimes.LoadStationsTime | nzdownscale/dataprocess/stations.py:216-293 | a result names its column `<var>_station`, needs the listing and every removed name's coordinates, and holds only requested times |
| StationTimes.LoadStationsTimeFiltered | nzdownscale/dataprocess/stations.py:269-293 | a table is the station filter applied to the non-empty concatenation of the per-station tables in listing order |
| StationTimes.LoadStationsTimeRows | nzdownscale/dataprocess/stations.py:246-293 | without resampling or filters, the table holds exactly the listed stations' observations at requested times |
| StationTimes.NoStationAtTimes | nzdownscale/dataprocess/stations.py:249-269 | when every file opens and names its site but none holds a requested time, `pd.concat` of nothing raises, whatever the coordinates |
| StationTimes.LoadStationsTimeAsWritten | nzdownscale/dataprocess/stations.py:234-245 | the code as written agrees with the corrected function on list requests |
| StationTimes.AsWrittenScalarRaises | nzdownscale/dataprocess/stations.py:239-245 | as written, a bare timestamp raises TypeError although a station holds a reading then |
| StationTimes.ScalarFindsReading | nzdownscale/dataprocess/stations.py:222-245 | with a bare timestamp accepted, a station holding a reading then contributes it |
| StationInfo.OpenAll | nzdownscale/dataprocess/stations.py:184-186 | every file is opened first; the first file that cannot be opened raises `OpenFailed` before any attribute is read |
| StationInfo.InfoOf | nzdownscale/dataprocess/stations.py:189-202 | one station's entry needs site name, agent number, latitude and longitude; a missing elevation becomes NaN |
| StationInfo.InfoDict | nzdownscale/dataprocess/stations.py:188-203 | the dictionary is built exactly when every file yields an entry, with one key each |
| StationInfo.InfoDictKeys | nzdownscale/dataprocess/stations.py:188-203 | its keys are exactly the site names of the files |
| StationInfo.InfoDictLastWins | nzdownscale/dataprocess/stations.py:199-202 | of several files with one site name, the last listed wins |
| StationInfo.GetStationInfo | nzdownscale/dataprocess/stations.py:181-203 | a result needs the listing, and has distinct keys |
| StationInfo.GetStationInfoKeys | nzdownscale/dataprocess/stations.py:181-203 | its keys are exactly the site names of the listed files |
| StationInfo.MergeAbsent | nzdownscale/dataprocess/stations.py:210-212 | the merge only appends to the master dictionary, keeping its keys distinct |
| StationInfo.MergeAbsentGet | nzdownscale/dataprocess/stations.py:210-212 | a key already present keeps its value; a new key takes its first value |
| StationInfo.MergeAllKeys | nzdownscale/dataprocess/stations.py:206-214 | the merged keys are exactly the union of the merged dictionaries' keys |
| StationInfo.MergeAllFirstWins | nzdownscale/dataprocess/stations.py:206-214 | a key takes its value from the first dictionary that holds it |
| StationInfo.GetAllStationInfo | nzdownscale/dataprocess/stations.py:205-214 | succeeds exactly when every variable's info does, with distinct keys |
| StationInfo.AllStationInfoKeys | nzdownscale/dataprocess/stations.py:205-214 | a station is present exactly when some variable reports it |
| StationInfo.FirstVariableWins | nzdownscale/dataprocess/stations.py:207-212 | a station keeps the information of the first variable reporting it |
| Era5.ParentPath | nzdownscale/dataprocess/era5.py:51 | the parent path is the ERA5 root joined with the variable's subdirectory; a variable without one raises KeyError |
| Era5.GetFilenames | nzdownscale/dataprocess/era5.py:45-65 | only temperature and precipitation succeed, and every file is under the parent path |
| Era5.TemperatureYearFiles | nzdownscale/dataprocess/era5.py:56-57 | temperature with a year gives exactly the visible `.nc` entries of `parent/<year>`, and no error when that directory is missing |
| Era5.TemperatureAllFiles | nzdownscale/dataprocess/era5.py:54-55 | temperature without a year gives exactly the `.nc` entries one level below the parent |
| Era5.PrecipitationAllFiles | nzdownscale/dataprocess/era5.py:60-61 | precipitation without a year gives exactly the `.nc` entries directly in the parent |
| Era5.PrecipitationYearFiles | nzdownscale/dataprocess/era5.py:62-63 | precipitation with a year raises for a missing parent; otherwise it gives every listed name containing the year, with no extension check and never more names than listed |
| Era5.PrecipitationYearOrder | nzdownscale/dataprocess/era5.py:63 | the k-th path joins the parent to the k-th listed name containing the year: listing order and repeats are kept |
| Era5.OtherVariablesFail | nzdownscale/dataprocess/era5.py:51-65 | any other variable raises: KeyError without a subdirectory, otherwise an unbound `filenames` |
| TrainDates.YearRange | nzdownscale/downscaler/train.py:62 | `np.arange(start, end + 1)` is the consecutive years from start to end, empty when end < start |
| TrainDates.SliceYears | nzdownscale/downscaler/train.py:102-103 | a whole-year slice keeps exactly the instants of those years, the last day to its end |
| TrainDates.EveryOther | nzdownscale/downscaler/train.py:107 | `[::2]` keeps the elements at even indices, ceil(n/2) of them |
| TrainDates.SetupDates | nzdownscale/downscaler/train.py:97-114 | raises IndexError exactly when the year range is empty; otherwise validation is the slice from the validation start year to the end year, and training is every other date before it |
| TrainDates.SplitIsDisjoint | nzdownscale/downscaler/train.py:97-103 | training and validation share no date; training lies in [start, valStart), and validation holds exactly the dates of [valStart, end] |
| TrainDates.TrainStride | nzdownscale/downscaler/train.py:105-109 | ceil(n/2) training tasks, covering every even index of the window |
| TrainDates.NoValidationYears | nzdownscale/downscaler/train.py:99-103 | a validation start year after the end year leaves no validation dates |
| ModelSetup.InitialiseModelAsWritten | nzdownscale/downscaler/train.py:130-151 | raises IndexError exactly when there are no validation tasks; otherwise exactly the given keyword arguments are passed and stored |
| ModelSetup.InitialiseModel | nzdownscale/downscaler/train.py:130-138 | with no keyword argument the defaults apply; otherwise the given ones do |
| ModelSetup.AsWrittenSkipsDefaults | nzdownscale/downscaler/train.py:137-138 | called with no keyword arguments, the code as written passes none, while the documented defaults set the `gnp` likelihood |
| ModelSetup.ModelName | nzdownscale/downscaler/train.py:203-207 | the name starts with `<prefix>_` when a prefix is given, ends with a given name, and ends with `model_<seconds>` for 'default'; its length is exactly that of those parts |
| ModelSetup.DefaultNamesDiffer | nzdownscale/downscaler/train.py:203-205 | default names made at different seconds differ |
| TrainLoop.NotNaN | nzdownscale/downscaler/train.py:223 | dropping NaNs never lengthens the list, and leaves nothing exactly when all are NaN |
| TrainLoop.NotNaNMembers | nzdownscale/downscaler/train.py:223 | the numbers kept are exactly the non-NaN losses |
| TrainLoop.Mean | nzdownscale/downscaler/train.py:224 | `np.mean` is NaN exactly for an empty list |
| TrainLoop.MeanBounds | nzdownscale/downscaler/train.py:224 | the mean lies between any bounds of its values |
| TrainLoop.EpochLoss | nzdownscale/downscaler/train.py:222-224 | the epoch loss is NaN exactly when every loss is NaN |
| TrainLoop.NaNNeverContributes | nzdownscale/downscaler/train.py:223-224 | inserting a NaN anywhere leaves the epoch loss unchanged |
| TrainLoop.EpochLossBounds | nzdownscale/downscaler/train.py:222-224 | a numeric epoch loss lies between the bounds of the non-NaN losses |
| TrainLoop.ExampleNaNDropped | nzdownscale/downscaler/train.py:223-224 | losses 1.0, NaN and 3.0 give 2.0 |
| TrainLoop.ComputeValLoss | nzdownscale/downscaler/train.py:209-214 | no validation tasks leaves `val_losses_not_nan` unbound; otherwise the mean of the non-NaN task losses |
| TrainLoop.Step | nzdownscale/downscaler/train.py:221-244 | an epoch raises exactly when it has no validation tasks |
| TrainLoop.StepHistories | nzdownscale/downscaler/train.py:222-228 | each epoch appends its train and validation loss, improving or not |
| TrainLoop.Epochs | nzdownscale/downscaler/train.py:221-244 | the loop raises exactly when some epoch has no validation tasks |
| TrainLoop.EpochsHistories | nzdownscale/downscaler/train.py:221-228 | the histories hold one entry per epoch: the epoch's train and validation losses |
| TrainLoop.MinimumSnoc | nzdownscale/downscaler/train.py:230-231 | the improvement update keeps the best the minimum of the history |
| TrainLoop.StepMinimum | nzdownscale/downscaler/train.py:227-231 | one epoch keeps `val_loss_best` the minimum of the validation losses |
| TrainLoop.BestIsMinimum | nzdownscale/downscaler/train.py:219-231 | `val_loss_best` is infinity while all losses are NaN, and otherwise the least validation loss so far |
| TrainLoop.BestNeverRises | nzdownscale/downscaler/train.py:230-231 | `val_loss_best` never rises from one epoch to the next |
| TrainLoop.ImprovesIffRecord | nzdownscale/downscaler/train.py:230 | `val_loss < val_loss_best` holds exactly when the loss is below every earlier loss |
| TrainLoop.RecordEpochs | nzdownscale/downscaler/train.py:230-244 | the reference checkpoint list: each record epoch once, in increasing order, and nothing else |
| TrainLoop.RecordEpochsSnoc | nzdownscale/downscaler/train.py:230 | one more epoch appends its index to the record epochs exactly when it improves |
| TrainLoop.StepRecordEpochs | nzdownscale/downscaler/train.py:230-244 | one epoch keeps the checkpoint epochs equal to the record epochs |
| TrainLoop.CheckpointsAreRecordEpochs | nzdownscale/downscaler/train.py:219-244 | the checkpoint epochs are exactly the record epochs of the validation history |
| TrainLoop.CheckpointIffRecord | nzdownscale/downscaler/train.py:219-244 | a checkpoint is written at epoch k exactly when k is a strict record, once, in epoch order |
| TrainLoop.StepSnapshots | nzdownscale/downscaler/train.py:230-244 | one epoch keeps earlier checkpoints intact and adds one with the histories as they now stand |
| TrainLoop.CheckpointContents | nzdownscale/downscaler/train.py:232-244 | each checkpoint holds the configured paths and the data settings, date info and keyword arguments, with both histories up to and including its epoch |
| TrainLoop.TrainModel | nzdownscale/downscaler/train.py:192-256 | training succeeds exactly when the loop does, keeps the full histories, and writes a final plot exactly when plotting is on |
| TrainLoop.ExampleRecords | nzdownscale/downscaler/train.py:230 | the record epochs of 5, 4, 6, 3, 3, 2 are 0, 1, 3 and 5 |
| TrainLoop.ExampleCheckpoints | nzdownscale/downscaler/train.py:219-244 | validation losses 5, 4, 6, 3, 3, 2 write four checkpoints, at epochs 0, 1, 3 and 5, and end with best 2 |

## Left out

- Reading NetCDF files, `xr.open_dataset`, `open_mfdataset`, `os.makedirs`, `torch.save`, pickling and
  progress bars. Files are records in a map, and a checkpoint records the paths and contents it would
  write.
- The wind components (`get_wind_components`) and `ds_to_da`. They are floating-point work on
  datasets. A station's value column is taken as read, and a failing variable lookup is not modelled.
- The arithmetic of daily resampling. A cell names the aggregator and the values of its day, and
  nothing is summed or averaged.
- ConvNP, TaskLoader, `train_epoch` and `model.loss_fn`. These are calls into the neural-process
  library. Their losses are inputs, one `EpochInput` per epoch.
- All plotting (`plot_stations`, `plot_stations_on_map`, `plot_context_encodings`, `make_loss_plot`)
  beyond the path a loss plot is saved under.
- `get_coord_df`, `get_training_output_dict` and `run_training_sequence`. They only chain the modelled
  operations.
- GPU selection and `Train.__init__`'s field copies.
- nzdownscale/dataprocess/utils.py and visualisation/stations.py are not part of this model.
- The clock. `round(time.time())` is the `seconds` parameter of `ModelSetup.ModelName`.
- Infinite losses. `np.isnan` does not drop them, but a loss here is a real number or NaN.
- TrainLoop.EpochLoss: the mean is exact real division, not floating point.
- Keyword-argument values are kept as their Python literals in strings. ConvNP never sees them.
- StationTimes.LoadStationsTime: the pandas index layout is not stated. Exact row contents are proved
  without resampling or station filters (`LoadStationsTimeRows`), per station for the daily case in
  both directions (`DailyCells`), and as the station filter over the concatenation in listing order
  (`LoadStationsTimeFiltered`).
- StationTimes.Dedup: which of the repeated requested times pandas' intersection keeps, and in what
  order, is fixed here as first occurrence in request order.
- RowOrder.SortByKey: rows with equal index keys keep their input order. pandas may order them
  otherwise.
- Files.GlobNcMembers: glob is modelled for the literal patterns the code builds. A path holding glob
  metacharacters is not.
- StationTimes.LoadStationsTime: the renamed column is taken to be the variable's value column, which
  is what `df.columns[0]` picks when the frame has it first.
- StationFiles.OpenStation: `OpenFailed` stands for every way `xr.open_dataset` fails. An absent path
  raises FileNotFoundError and an unreadable file raises ValueError or OSError. The disk map only
  records which paths open, so these kinds are not told apart.
- Coordinates: a station coordinate is either a number or missing (AttributeError). A coordinate that
  is present but not a scalar number, for which `float` raises TypeError or ValueError, is not
  modelled.
- Calendar.Instant: an instant has whole-second resolution and an unbounded year. pandas and xarray
  times are `datetime64[ns]`, with nanosecond resolution and a range of about 1678 to 2262. No stated
  property depends on the difference.
- TrainDates.SliceYears: the ERA5 time coordinate is taken to be sorted, as a label slice requires.

## Findings

| source | as written | input that shows it | evidently intended | confidence | as-written member | corrected member |
|---|---|---|---|---|---|---|
| nzdownscale/dataprocess/stations.py:239-245 | a bare timestamp becomes a scalar `np.datetime64`, then `pd.DatetimeIndex(time)` raises TypeError for a scalar | `load_stations_time(var, pd.Timestamp(t))` where a listed station holds a reading at `t` | a bare timestamp is accepted, as the docstring says, and behaves as a one-element list | not executed | StationTimes.AsWrittenScalarRaises | StationTimes.ScalarFindsReading |
| nzdownscale/downscaler/train.py:137-138 | `**convnp_kwargs` is always a dict, never `None`, so `CONVNP_KWARGS_DEFAULT` is never applied | `initialise_model()` with no keyword arguments: ConvNP gets none, and the stored kwargs are `{}` | the defaults apply when no keyword argument is given, as the docstring says | not executed | ModelSetup.AsWrittenSkipsDefaults | ModelSetup.InitialiseModel |
