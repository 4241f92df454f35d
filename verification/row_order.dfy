/** The order `sort_index()` gives a stations table indexed by (time, station_name, latitude,
    longitude), and a sort that establishes it. */
module RowOrder {
  import opened Calendar
  import opened StationFiles

  /** Python's `<` on `str`: code point by code point, a proper prefix first. */
  predicate StrLt(a: string, b: string) {
    if |a| == 0 then |b| > 0
    else if |b| == 0 then false
    else a[0] < b[0] || (a[0] == b[0] && StrLt(a[1..], b[1..]))
  }

  lemma {:induction false} StrLtTrichotomy(a: string, b: string)
    ensures a == b || StrLt(a, b) || StrLt(b, a)
    ensures !(StrLt(a, b) && StrLt(b, a))
    ensures !StrLt(a, a)
    decreases |a|
  {
    if |a| > 0 && |b| > 0 {
      StrLtTrichotomy(a[1..], b[1..]);
      if a[0] == b[0] && a[1..] == b[1..] {
        assert a == [a[0]] + a[1..] && b == [b[0]] + b[1..];
      }
      assert StrLt(a, a) == StrLt(a[1..], a[1..]);
    } else if |a| > 0 {
      assert StrLt(a, a) == StrLt(a[1..], a[1..]);
      StrLtTrichotomy(a[1..], a[1..]);
    }
  }

  lemma {:induction false} StrLtTransitive(a: string, b: string, c: string)
    requires StrLt(a, b) && StrLt(b, c)
    ensures StrLt(a, c)
    decreases |a|
  {
    if |a| > 0 && a[0] == b[0] && b[0] == c[0] {
      StrLtTransitive(a[1..], b[1..], c[1..]);
    }
  }

  /** Index order on (time, station_name, latitude, longitude), compared left to right. */
  predicate KeyLe(x: Row, y: Row) {
    || Before(x.time, y.time)
    || (x.time == y.time && StrLt(x.name, y.name))
    || (x.time == y.time && x.name == y.name && x.lat < y.lat)
    || (x.time == y.time && x.name == y.name && x.lat == y.lat && x.lon <= y.lon)
  }

  lemma KeyLeTotal(x: Row, y: Row)
    ensures KeyLe(x, y) || KeyLe(y, x)
  {
    BeforeIsStrictTotalOrder(x.time, y.time, y.time);
    StrLtTrichotomy(x.name, y.name);
  }

  lemma KeyLeTransitive(x: Row, y: Row, z: Row)
    requires KeyLe(x, y) && KeyLe(y, z)
    ensures KeyLe(x, z)
  {
    BeforeIsStrictTotalOrder(x.time, y.time, z.time);
    StrLtTrichotomy(x.name, y.name);
    StrLtTrichotomy(y.name, z.name);
    if StrLt(x.name, y.name) && StrLt(y.name, z.name) {
      StrLtTransitive(x.name, y.name, z.name);
    }
  }

  predicate SortedByKey(s: seq<Row>) {
    forall i, j :: 0 <= i < j < |s| ==> KeyLe(s[i], s[j])
  }

  /** `x` placed before the first element it does not follow. */
  function Insert(x: Row, s: seq<Row>): (r: seq<Row>)
    requires SortedByKey(s)
    ensures SortedByKey(r)
    ensures multiset(r) == multiset(s) + multiset{x}
  {
    if |s| == 0 then [x]
    else if KeyLe(x, s[0]) then
      assert forall j :: 0 <= j < |s| ==> KeyLe(x, s[j]) by {
        forall j | 0 <= j < |s| ensures KeyLe(x, s[j]) {
          if j > 0 { KeyLeTransitive(x, s[0], s[j]); }
        }
      }
      [x] + s
    else
      var tail := Insert(x, s[1..]);
      assert s == [s[0]] + s[1..];
      KeyLeTotal(x, s[0]);
      assert forall j :: 0 <= j < |tail| ==> KeyLe(s[0], tail[j]) by {
        forall j | 0 <= j < |tail| ensures KeyLe(s[0], tail[j]) {
          assert tail[j] in multiset(tail);
          if tail[j] != x {
            assert tail[j] in multiset(s[1..]);
            var k :| 0 <= k < |s[1..]| && s[1..][k] == tail[j];
            assert KeyLe(s[0], s[k + 1]);
          }
        }
      }
      [s[0]] + tail
  }

  /** The `sort_index()` of a table: its rows in key order. Rows with equal keys keep their
      relative order, one of the orders pandas may produce. */
  function SortByKey(s: seq<Row>): (r: seq<Row>)
    ensures SortedByKey(r)
    ensures multiset(r) == multiset(s)
  {
    if |s| == 0 then []
    else
      assert s == [s[0]] + s[1..];
      Insert(s[0], SortByKey(s[1..]))
  }
}
