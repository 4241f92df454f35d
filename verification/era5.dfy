/** ERA5 file-name resolution (`ProcessERA5.get_filenames`): per variable, where the reanalysis
    files of one year, or of all years, lie under the configured ERA5 directory. */
module Era5 {
  import opened Wrappers
  import opened Text
  import opened Seqs
  import opened Files

  /** `DATA_PATHS['ERA5']` and the `subdir` of each `DIR_ERA5` entry. */
  datatype Era5Config = Era5Config(root: string, subdirs: map<string, string>)

  const Temperature := "temperature"
  const Precipitation := "precipitation"

  /** `f'{DATA_PATHS["ERA5"]}/{DIR_ERA5[var]["subdir"]}'`; a variable without an entry raises KeyError. */
  function ParentPath(cfg: Era5Config, variable: string): (r: Outcome<string>)
    ensures r.Success? <==> variable in cfg.subdirs
    ensures r.Success? ==> r.value == cfg.root + "/" + cfg.subdirs[variable]
    ensures r.Failure? ==> r.error == KeyError(variable)
  {
    if variable in cfg.subdirs then Success(Join(cfg.root, cfg.subdirs[variable]))
    else Failure(KeyError(variable))
  }

  /** The names `os.listdir(parent)` gives that contain the year's digits anywhere. */
  function NamesWithYear(names: seq<string>, year: int): seq<string> {
    Filter(names, HasYear(year))
  }

  /** Whether a file name contains the year's digits anywhere. */
  function HasYear(year: int): string -> bool {
    (n: string) => Contains(n, IntToString(year))
  }

  /** `get_filenames(var, year)`; `year == None` asks for every year. */
  function GetFilenames(cfg: Era5Config, t: Tree, variable: string, year: Option<int>): (r: Outcome<seq<string>>)
    ensures r.Success? ==> variable == Temperature || variable == Precipitation
    ensures r.Success? ==> variable in cfg.subdirs
    ensures r.Success? ==> forall i :: 0 <= i < |r.value| ==> StartsWith(r.value[i], Join(cfg.root, cfg.subdirs[variable]) + "/")
  {
    var parent :- ParentPath(cfg, variable);
    if variable == Temperature then
      var files := if year.None? then GlobNestedNc(t, parent) else GlobNc(t, Join(parent, IntToString(year.value)));
      assert forall x :: x in files ==> StartsWith(x, parent + "/") by {
        forall x | x in files ensures StartsWith(x, parent + "/") {
          if year.None? {
            UnderParentNested(t, parent, x);
          } else {
            UnderSubdir(t, parent, IntToString(year.value), x);
          }
        }
      }
      Success(files)
    else if variable == Precipitation then
      if year.None? then
        var files := GlobNc(t, parent);
        assert forall x :: x in files ==> StartsWith(x, parent + "/") by {
          forall x | x in files ensures StartsWith(x, parent + "/") {
            GlobNcInside(t, parent, x);
          }
        }
        Success(files)
      else
        var names :- Listdir(t, parent);
        Success(JoinAll(parent, NamesWithYear(names, year.value)))
    else
      // neither branch assigns `filenames`, so `return filenames` raises
      Failure(UnboundLocal("filenames"))
  }

  /** Every path the glob of `parent/<sub>` returns starts with `parent/`. */
  lemma UnderSubdir(t: Tree, parent: string, sub: string, x: string)
    requires x in GlobNc(t, Join(parent, sub))
    ensures StartsWith(x, parent + "/")
  {
    GlobNcInside(t, Join(parent, sub), x);
    assert Join(parent, sub) + "/" == (parent + "/") + (sub + "/");
    PrefixOfPrefix(x, parent + "/", sub + "/");
  }

  /** Every path the nested glob below `parent` returns starts with `parent/`. */
  lemma UnderParentNested(t: Tree, parent: string, x: string)
    requires x in GlobNestedNc(t, parent)
    ensures StartsWith(x, parent + "/")
  {
    var d := GlobNestedNcSource(t, parent, x);
    UnderSubdir(t, parent, d, x);
  }

  lemma PrefixOfPrefix(x: string, a: string, b: string)
    requires StartsWith(x, a + b)
    ensures StartsWith(x, a)
  {
    assert x[..|a|] == (a + b)[..|a|];
  }

  /** Temperature, one year: exactly the visible `.nc` entries of the year's own directory
      `parent/<year>`, and no error even when that directory is missing. */
  lemma TemperatureYearFiles(cfg: Era5Config, t: Tree, year: int, x: string)
    requires Temperature in cfg.subdirs
    ensures var parent := Join(cfg.root, cfg.subdirs[Temperature]);
            var dir := Join(parent, IntToString(year));
            var r := GetFilenames(cfg, t, Temperature, Some(year));
            && r.Success?
            && (x in r.value <==> NcEntry(t, dir, x))
  {
    var parent := Join(cfg.root, cfg.subdirs[Temperature]);
    GlobNcMembers(t, Join(parent, IntToString(year)), x);
  }

  /** Temperature, all years: the visible `.nc` entries of every visible sub-directory of `parent`. */
  lemma TemperatureAllFiles(cfg: Era5Config, t: Tree, x: string)
    requires Temperature in cfg.subdirs
    ensures var parent := Join(cfg.root, cfg.subdirs[Temperature]);
            var r := GetFilenames(cfg, t, Temperature, None);
            && r.Success?
            && (x in r.value <==>
                 parent in t.dirs && exists d :: d in t.dirs[parent] && !Hidden(d) && NcEntry(t, Join(parent, d), x))
  {
    var parent := Join(cfg.root, cfg.subdirs[Temperature]);
    assert GetFilenames(cfg, t, Temperature, None) == Success(GlobNestedNc(t, parent));
    if x in GlobNestedNc(t, parent) {
      var d := GlobNestedNcSource(t, parent, x);
      GlobNcMembers(t, Join(parent, d), x);
    }
    if parent in t.dirs && exists d :: d in t.dirs[parent] && !Hidden(d) && NcEntry(t, Join(parent, d), x) {
      var d :| d in t.dirs[parent] && !Hidden(d) && NcEntry(t, Join(parent, d), x);
      GlobNcMembers(t, Join(parent, d), x);
      GlobNestedNcFinds(t, parent, d, x);
    }
  }

  /** Precipitation, all years: the visible `.nc` entries directly inside `parent`. */
  lemma PrecipitationAllFiles(cfg: Era5Config, t: Tree, x: string)
    requires Precipitation in cfg.subdirs
    ensures var parent := Join(cfg.root, cfg.subdirs[Precipitation]);
            var r := GetFilenames(cfg, t, Precipitation, None);
            && r.Success?
            && (x in r.value <==> NcEntry(t, parent, x))
  {
    GlobNcMembers(t, Join(cfg.root, cfg.subdirs[Precipitation]), x);
  }

  /** Precipitation, one year: `os.listdir` raises when `parent` is missing; otherwise every listed
      name containing `str(year)`, in listing order, joined to `parent`, with no extension check. */
  lemma PrecipitationYearFiles(cfg: Era5Config, t: Tree, year: int)
    requires Precipitation in cfg.subdirs
    ensures var parent := Join(cfg.root, cfg.subdirs[Precipitation]);
            var r := GetFilenames(cfg, t, Precipitation, Some(year));
            && (r.Failure? <==> parent !in t.dirs)
            && (r.Failure? ==> r.error == FileNotFound(parent))
            && (r.Success? ==>
                 var names := t.dirs[parent];
                 && |r.value| <= |names|
                 && (forall i :: 0 <= i < |r.value| ==>
                       exists n :: n in names && Contains(n, IntToString(year)) && r.value[i] == Join(parent, n))
                 && (forall n :: n in names && Contains(n, IntToString(year)) ==> Join(parent, n) in r.value))
  {
    var parent := Join(cfg.root, cfg.subdirs[Precipitation]);
    if parent in t.dirs {
      var names := t.dirs[parent];
      var kept := NamesWithYear(names, year);
      var r := JoinAll(parent, kept);
      forall i | 0 <= i < |r|
        ensures exists n :: n in names && Contains(n, IntToString(year)) && r[i] == Join(parent, n)
      {
        assert kept[i] in kept;
      }
      forall n | n in names && Contains(n, IntToString(year)) ensures Join(parent, n) in r {
        var j :| 0 <= j < |names| && names[j] == n;
        var k :| 0 <= k < |kept| && kept[k] == n;
        assert r[k] == Join(parent, n);
      }
    }
  }

  /** Precipitation, one year, in listing order: the k-th path is `parent` joined to the k-th listed
      name that contains the year, so names keep their `os.listdir` order and their repeats. */
  lemma PrecipitationYearOrder(cfg: Era5Config, t: Tree, year: int)
    requires Precipitation in cfg.subdirs
    ensures var parent := Join(cfg.root, cfg.subdirs[Precipitation]);
            var r := GetFilenames(cfg, t, Precipitation, Some(year));
            r.Success? ==>
              var idx := FilterIndices(t.dirs[parent], HasYear(year));
              && |r.value| == |idx|
              && forall k :: 0 <= k < |idx| ==> r.value[k] == Join(parent, t.dirs[parent][idx[k]])
  {
    var parent := Join(cfg.root, cfg.subdirs[Precipitation]);
    if parent in t.dirs {
      FilterAtIndices(t.dirs[parent], HasYear(year));
    }
  }

  /** Every variable other than temperature and precipitation fails: with KeyError when it has no
      directory entry, and otherwise because `filenames` is never assigned. */
  lemma OtherVariablesFail(cfg: Era5Config, t: Tree, variable: string, year: Option<int>)
    requires variable != Temperature && variable != Precipitation
    ensures GetFilenames(cfg, t, variable, year).Failure?
    ensures GetFilenames(cfg, t, variable, year).error ==
              if variable in cfg.subdirs then UnboundLocal("filenames") else KeyError(variable)
  {
  }
}
