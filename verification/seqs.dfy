/** List comprehensions and concatenation over sequences. */
module Seqs {

  /** `[x for x in s if p(x)]`. */
  function Filter<T>(s: seq<T>, p: T -> bool): (r: seq<T>)
    ensures |r| <= |s|
    ensures forall i :: 0 <= i < |r| ==> r[i] in s && p(r[i])
    ensures forall i :: 0 <= i < |s| && p(s[i]) ==> s[i] in r
  {
    if |s| == 0 then []
    else Filter(s[..|s| - 1], p) + (if p(s[|s| - 1]) then [s[|s| - 1]] else [])
  }

  lemma {:induction false} FilterAppend<T>(a: seq<T>, b: seq<T>, p: T -> bool)
    ensures Filter(a + b, p) == Filter(a, p) + Filter(b, p)
    decreases |b|
  {
    if |b| == 0 {
      assert a + b == a;
    } else {
      var b' := b[..|b| - 1];
      assert (a + b)[..|a + b| - 1] == a + b';
      FilterAppend(a, b', p);
    }
  }

  /** The positions of `s` whose elements satisfy `p`, in increasing order. */
  function FilterIndices<T>(s: seq<T>, p: T -> bool): (idx: seq<nat>)
    ensures forall k :: 0 <= k < |idx| ==> idx[k] < |s| && p(s[idx[k]])
    ensures forall k, l :: 0 <= k < l < |idx| ==> idx[k] < idx[l]
    ensures forall j :: 0 <= j < |s| && p(s[j]) ==> j in idx
    decreases |s|
  {
    if |s| == 0 then []
    else
      var s' := s[..|s| - 1];
      var prev := FilterIndices(s', p);
      assert forall k :: 0 <= k < |prev| ==> s'[prev[k]] == s[prev[k]];
      assert forall j :: 0 <= j < |s'| ==> s'[j] == s[j];
      prev + (if p(s[|s| - 1]) then [|s| - 1] else [])
  }

  /** `Filter` is the subsequence of `s` at exactly the positions `FilterIndices` lists: what passes
      keeps its relative order and its repeats. */
  lemma {:induction false} FilterAtIndices<T>(s: seq<T>, p: T -> bool)
    ensures |Filter(s, p)| == |FilterIndices(s, p)|
    ensures forall k :: 0 <= k < |Filter(s, p)| ==> Filter(s, p)[k] == s[FilterIndices(s, p)[k]]
    decreases |s|
  {
    if |s| > 0 {
      var s' := s[..|s| - 1];
      FilterAtIndices(s', p);
      var f, idx := Filter(s, p), FilterIndices(s, p);
      var f', idx' := Filter(s', p), FilterIndices(s', p);
      assert f == f' + (if p(s[|s| - 1]) then [s[|s| - 1]] else []);
      assert idx == idx' + (if p(s[|s| - 1]) then [|s| - 1] else []);
      forall k | 0 <= k < |f| ensures f[k] == s[idx[k]] {
        if k < |f'| {
          assert f[k] == f'[k] == s'[idx'[k]];
        }
      }
    }
  }

  /** Filtering twice keeps what both predicates keep. */
  lemma {:induction false} FilterFilter<T>(s: seq<T>, p: T -> bool, q: T -> bool)
    ensures Filter(Filter(s, p), q) == Filter(s, x => p(x) && q(x))
    decreases |s|
  {
    if |s| > 0 {
      var s' := s[..|s| - 1];
      var x := s[|s| - 1];
      FilterFilter(s', p, q);
      FilterAppend(Filter(s', p), if p(x) then [x] else [], q);
    }
  }

  /** The elements of `s` that satisfy `p` keep their relative order. */
  lemma {:induction false} FilterAllKept<T>(s: seq<T>, p: T -> bool)
    requires forall i :: 0 <= i < |s| ==> p(s[i])
    ensures Filter(s, p) == s
    decreases |s|
  {
    if |s| > 0 {
      FilterAllKept(s[..|s| - 1], p);
      assert s[..|s| - 1] + [s[|s| - 1]] == s;
    }
  }

  /** Nothing passes a predicate that no element satisfies. */
  lemma {:induction false} FilterNone<T>(s: seq<T>, p: T -> bool)
    requires forall i :: 0 <= i < |s| ==> !p(s[i])
    ensures Filter(s, p) == []
    decreases |s|
  {
    if |s| > 0 {
      FilterNone(s[..|s| - 1], p);
    }
  }

  /** `[f(x) for x in s]`. */
  function Map<T, U>(s: seq<T>, f: T -> U): (r: seq<U>)
    ensures |r| == |s|
    ensures forall i :: 0 <= i < |s| ==> r[i] == f(s[i])
  {
    if |s| == 0 then [] else Map(s[..|s| - 1], f) + [f(s[|s| - 1])]
  }

  /** `pd.concat` / `sum(lists, [])`: the parts one after another. */
  function Flatten<T>(parts: seq<seq<T>>): (r: seq<T>)
  {
    if |parts| == 0 then [] else Flatten(parts[..|parts| - 1]) + parts[|parts| - 1]
  }

  lemma {:induction false} FlattenMembership<T>(parts: seq<seq<T>>, x: T)
    ensures x in Flatten(parts) <==> exists i :: 0 <= i < |parts| && x in parts[i]
    decreases |parts|
  {
    if |parts| > 0 {
      FlattenMembership(parts[..|parts| - 1], x);
      if x in parts[|parts| - 1] {
        assert x in Flatten(parts);
      }
      if exists i :: 0 <= i < |parts| && x in parts[i] {
        var i :| 0 <= i < |parts| && x in parts[i];
        if i < |parts| - 1 {
          assert x in parts[..|parts| - 1][i];
        }
      }
    }
  }

  lemma {:induction false} FlattenAppend<T>(a: seq<seq<T>>, b: seq<seq<T>>)
    ensures Flatten(a + b) == Flatten(a) + Flatten(b)
    decreases |b|
  {
    if |b| == 0 {
      assert a + b == a;
    } else {
      var b' := b[..|b| - 1];
      assert (a + b)[..|a + b| - 1] == a + b';
      FlattenAppend(a, b');
    }
  }

  /** Filtering a concatenation filters each part. */
  lemma {:induction false} FilterFlatten<T>(parts: seq<seq<T>>, p: T -> bool)
    ensures Filter(Flatten(parts), p) == Flatten(Map(parts, (s: seq<T>) => Filter(s, p)))
    decreases |parts|
  {
    if |parts| > 0 {
      var init := parts[..|parts| - 1];
      FilterFlatten(init, p);
      FilterAppend(Flatten(init), parts[|parts| - 1], p);
      assert Map(parts, (s: seq<T>) => Filter(s, p))[..|parts| - 1] == Map(init, (s: seq<T>) => Filter(s, p));
    }
  }
}
