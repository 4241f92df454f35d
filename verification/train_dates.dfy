/** The date split of `Train.setup_task_loader`: training dates before the validation start year,
    thinned to every other date, and validation dates from that year to the end year. */
module TrainDates {
  import opened Wrappers
  import opened Seqs
  import opened Calendar

  /** `np.arange(start_year, end_year + 1)`. */
  function YearRange(startYear: int, endYear: int): (ys: seq<int>)
    ensures |ys| == if endYear < startYear then 0 else endYear - startYear + 1
    ensures forall i :: 0 <= i < |ys| ==> ys[i] == startYear + i
    decreases endYear - startYear
  {
    if endYear < startYear then [] else YearRange(startYear, endYear - 1) + [endYear]
  }

  /** `ds.sel(time=slice(f'{a}-01-01', f'{b}-12-31'))` on the ERA5 time coordinate, which is in
      increasing order: partial-date bounds cover whole days, so every instant of years `a` to `b`
      is kept, the last day included to its end. */
  function SliceYears(times: seq<Instant>, a: int, b: int): (r: seq<Instant>)
    ensures forall i :: 0 <= i < |r| ==> a <= r[i].year <= b
    ensures forall t :: t in r <==> t in times && a <= t.year <= b
  {
    Filter(times, (t: Instant) => a <= t.year <= b)
  }

  /** `s[::2]`: the elements at indices 0, 2, 4, and so on. */
  function EveryOther<T>(s: seq<T>): (r: seq<T>)
    ensures |r| == (|s| + 1) / 2
    ensures forall i :: 0 <= i < |r| ==> r[i] == s[2 * i]
  {
    if |s| <= 1 then s
    else [s[0]] + EveryOther(s[2..])
  }

  /** The dates of the training and validation tasks. */
  datatype DatePlan = DatePlan(train: seq<Instant>, val: seq<Instant>)

  /** The windows of `setup_task_loader`. `years[-1]` raises IndexError when the end year is before
      the start year. */
  function SetupDates(times: seq<Instant>, startYear: int, endYear: int, valStartYear: int): (r: Outcome<DatePlan>)
    ensures r.Failure? <==> endYear < startYear
    ensures r.Failure? ==> r.error == IndexError
    ensures r.Success? ==> r.value.val == SliceYears(times, valStartYear, endYear)
    ensures r.Success? ==> r.value.train == EveryOther(SliceYears(times, startYear, valStartYear - 1))
  {
    var years := YearRange(startYear, endYear);
    if |years| == 0 then Failure(IndexError)
    else
      var trainDates := SliceYears(times, startYear, valStartYear - 1);
      var valDates := SliceYears(times, valStartYear, years[|years| - 1]);
      Success(DatePlan(EveryOther(trainDates), valDates))
  }

  /** Training and validation never share a date, training dates lie in the years before the
      validation start year and no earlier than the start year, and validation keeps every date of
      its window. */
  lemma SplitIsDisjoint(times: seq<Instant>, startYear: int, endYear: int, valStartYear: int, t: Instant)
    requires SetupDates(times, startYear, endYear, valStartYear).Success?
    ensures var p := SetupDates(times, startYear, endYear, valStartYear).value;
            && (t in p.train ==> t in times && startYear <= t.year < valStartYear)
            && (t in p.val <==> t in times && valStartYear <= t.year <= endYear)
            && !(t in p.train && t in p.val)
  {
    var p := SetupDates(times, startYear, endYear, valStartYear).value;
    var s := SliceYears(times, startYear, valStartYear - 1);
    if t in p.train {
      var i :| 0 <= i < |p.train| && p.train[i] == t;
      assert s[2 * i] in s;
    }
  }

  /** Every other date of the training window is used, starting with the first: about half. */
  lemma TrainStride(times: seq<Instant>, startYear: int, endYear: int, valStartYear: int)
    requires SetupDates(times, startYear, endYear, valStartYear).Success?
    ensures var p := SetupDates(times, startYear, endYear, valStartYear).value;
            var window := SliceYears(times, startYear, valStartYear - 1);
            && |p.train| == (|window| + 1) / 2
            && forall i :: 0 <= i < |window| && i % 2 == 0 ==> window[i] in p.train
  {
    var p := SetupDates(times, startYear, endYear, valStartYear).value;
    var window := SliceYears(times, startYear, valStartYear - 1);
    forall i | 0 <= i < |window| && i % 2 == 0 ensures window[i] in p.train {
      assert p.train[i / 2] == window[i];
    }
  }

  /** With the validation start year after the end year, there are no validation dates. */
  lemma NoValidationYears(times: seq<Instant>, startYear: int, endYear: int, valStartYear: int)
    requires startYear <= endYear < valStartYear
    ensures SetupDates(times, startYear, endYear, valStartYear).Success?
    ensures SetupDates(times, startYear, endYear, valStartYear).value.val == []
  {
    FilterNone(times, (t: Instant) => valStartYear <= t.year <= endYear);
  }
}
