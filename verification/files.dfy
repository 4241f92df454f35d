/** An abstract directory tree, and the two ways the source enumerates it: `os.listdir` and `glob.glob`. */
module Files {
  import opened Wrappers
  import opened Text
  import opened Seqs

  /** Every directory path with its entry names, in the order the operating system lists them. */
  datatype Tree = Tree(dirs: map<string, seq<string>>)

  /** `os.listdir(dir)`: raises for a path that is not a directory. */
  function Listdir(t: Tree, dir: string): (r: Outcome<seq<string>>)
    ensures r.Failure? <==> dir !in t.dirs
    ensures r.Failure? ==> r.error == FileNotFound(dir)
  {
    if dir in t.dirs then Success(t.dirs[dir]) else Failure(FileNotFound(dir))
  }

  /** glob's `*` never matches a name with a leading dot. */
  predicate Hidden(name: string) {
    StartsWith(name, ".")
  }

  /** The names glob's `*.nc` matches. */
  predicate MatchesStarNc(name: string) {
    EndsWith(name, ".nc") && !Hidden(name)
  }

  /** `[f'{dir}/{n}' for n in names]`. */
  function JoinAll(dir: string, names: seq<string>): (r: seq<string>)
    ensures |r| == |names|
    ensures forall i :: 0 <= i < |names| ==> r[i] == Join(dir, names[i])
  {
    Map(names, (n: string) => Join(dir, n))
  }

  // `glob.glob(f'{dir}/*.nc')`: the matching entries of `dir`, or nothing when `dir` is missing.
  function GlobNc(t: Tree, dir: string): seq<string> {
    if dir in t.dirs then JoinAll(dir, Filter(t.dirs[dir], MatchesStarNc)) else []
  }

  /** `x` is the path of a visible `.nc` entry listed in directory `dir`. */
  predicate NcEntry(t: Tree, dir: string, x: string) {
    dir in t.dirs && exists n :: n in t.dirs[dir] && MatchesStarNc(n) && x == Join(dir, n)
  }

  /** A file `*.nc` finds is a listed, visible `.nc` entry of `dir`, and every such entry is found. */
  lemma GlobNcMembers(t: Tree, dir: string, x: string)
    ensures x in GlobNc(t, dir) <==> NcEntry(t, dir, x)
  {
    if dir in t.dirs {
      var kept := Filter(t.dirs[dir], MatchesStarNc);
      var r := JoinAll(dir, kept);
      if x in r {
        var i :| 0 <= i < |r| && r[i] == x;
        assert kept[i] in kept;
      }
      if NcEntry(t, dir, x) {
        var n :| n in t.dirs[dir] && MatchesStarNc(n) && x == Join(dir, n);
        var i :| 0 <= i < |t.dirs[dir]| && t.dirs[dir][i] == n;
        var k :| 0 <= k < |kept| && kept[k] == n;
        assert r[k] == x;
      }
    }
  }

  /** Every path `*.nc` finds lies inside `dir`. */
  lemma GlobNcInside(t: Tree, dir: string, x: string)
    requires x in GlobNc(t, dir)
    ensures StartsWith(x, dir + "/")
  {
    GlobNcMembers(t, dir, x);
    var n :| n in t.dirs[dir] && MatchesStarNc(n) && x == Join(dir, n);
    assert x[..|dir + "/"|] == dir + "/";
  }

  /** The sub-directories `glob` descends into for a `*` component. */
  function VisibleEntries(t: Tree, dir: string): seq<string>
    requires dir in t.dirs
  {
    Filter(t.dirs[dir], (n: string) => !Hidden(n))
  }

  // `glob.glob(f'{dir}/*/*.nc')`: the matching files one level below `dir`, sub-directory by sub-directory.
  function GlobNestedNc(t: Tree, dir: string): seq<string> {
    if dir in t.dirs then Flatten(Map(VisibleEntries(t, dir), (d: string) => GlobNc(t, Join(dir, d)))) else []
  }

  // What the nested pattern finds: a `.nc` entry of a visible sub-directory of `dir`, and nothing else.
  lemma GlobNestedNcMembers(t: Tree, dir: string, x: string)
    ensures x in GlobNestedNc(t, dir) <==>
              dir in t.dirs && exists d :: d in t.dirs[dir] && !Hidden(d) && x in GlobNc(t, Join(dir, d))
  {
    if x in GlobNestedNc(t, dir) {
      var d := GlobNestedNcSource(t, dir, x);
    }
    if dir in t.dirs && exists d :: d in t.dirs[dir] && !Hidden(d) && x in GlobNc(t, Join(dir, d)) {
      var d :| d in t.dirs[dir] && !Hidden(d) && x in GlobNc(t, Join(dir, d));
      GlobNestedNcFinds(t, dir, d, x);
    }
  }

  lemma GlobNestedNcSource(t: Tree, dir: string, x: string) returns (d: string)
    requires x in GlobNestedNc(t, dir)
    ensures dir in t.dirs && d in t.dirs[dir] && !Hidden(d) && x in GlobNc(t, Join(dir, d))
  {
    var subs := VisibleEntries(t, dir);
    var parts := Map(subs, (d: string) => GlobNc(t, Join(dir, d)));
    assert GlobNestedNc(t, dir) == Flatten(parts);
    FlattenMembership(parts, x);
    var i :| 0 <= i < |parts| && x in parts[i];
    d := subs[i];
    VisibleEntry(t, dir, subs, i);
    assert parts[i] == GlobNc(t, Join(dir, d));
  }

  lemma GlobNestedNcFinds(t: Tree, dir: string, d: string, x: string)
    requires dir in t.dirs && d in t.dirs[dir] && !Hidden(d) && x in GlobNc(t, Join(dir, d))
    ensures x in GlobNestedNc(t, dir)
  {
    var subs := VisibleEntries(t, dir);
    var parts := Map(subs, (d: string) => GlobNc(t, Join(dir, d)));
    assert GlobNestedNc(t, dir) == Flatten(parts);
    var i := VisibleIndex(t, dir, subs, d);
    assert x in parts[i];
    FlattenMembership(parts, x);
  }

  lemma VisibleEntry(t: Tree, dir: string, subs: seq<string>, i: int)
    requires dir in t.dirs && subs == VisibleEntries(t, dir) && 0 <= i < |subs|
    ensures subs[i] in t.dirs[dir] && !Hidden(subs[i])
  {
  }

  lemma VisibleIndex(t: Tree, dir: string, subs: seq<string>, d: string) returns (i: int)
    requires dir in t.dirs && subs == VisibleEntries(t, dir)
    requires d in t.dirs[dir] && !Hidden(d)
    ensures 0 <= i < |subs| && subs[i] == d
  {
    var j :| 0 <= j < |t.dirs[dir]| && t.dirs[dir][j] == d;
    assert d in subs;
    i :| 0 <= i < |subs| && subs[i] == d;
  }
}
