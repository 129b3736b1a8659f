/** The K-best sampler (fcyc.c): the array keeps the smallest samples seen so far, in order. The
    samples are real numbers here: only comparisons and one product are made of them. */
module KBest {

  predicate Sorted(s: seq<real>) {
    forall i, j | 0 <= i < j < |s| :: s[i] <= s[j]
  }

  /** v goes behind everything that is not larger. */
  function Insert(s: seq<real>, v: real): (r: seq<real>)
    ensures |r| == |s| + 1
  {
    if s == [] || v < s[0] then [v] + s else [s[0]] + Insert(s[1..], v)
  }

  function Sort(s: seq<real>): (r: seq<real>)
    ensures |r| == |s|
  {
    if s == [] then [] else Insert(Sort(s[..|s| - 1]), s[|s| - 1])
  }

  function Min(a: int, b: int): (m: int)
    ensures m <= a && m <= b && (m == a || m == b)
  {
    if a < b then a else b
  }

  /** The k smallest samples, in order. */
  function Best(k: nat, samples: seq<real>): (r: seq<real>)
    ensures |r| == Min(k, |samples|)
  {
    Sort(samples)[..Min(k, |samples|)]
  }

  lemma {:induction false} InsertKeeps(s: seq<real>, v: real)
    ensures multiset(Insert(s, v)) == multiset(s) + multiset{v}
  {
    if s != [] && v >= s[0] {
      InsertKeeps(s[1..], v);
      assert s == [s[0]] + s[1..];
    }
  }

  lemma SortedCons(h: real, r: seq<real>)
    requires Sorted(r) && forall x | x in r :: h <= x
    ensures Sorted([h] + r)
  {
    var s := [h] + r;
    forall i, j | 0 <= i < j < |s| ensures s[i] <= s[j] {
      assert s[j] == r[j - 1] && r[j - 1] in r;
      if i > 0 { assert s[i] == r[i - 1]; }
    }
  }

  lemma {:induction false} InsertSorts(s: seq<real>, v: real)
    requires Sorted(s)
    ensures Sorted(Insert(s, v))
  {
    if s == [] || v < s[0] {
      SortedCons(v, s);
    } else {
      InsertSorts(s[1..], v);
      InsertKeeps(s[1..], v);
      var r := Insert(s[1..], v);
      forall x | x in r ensures s[0] <= x {
        assert x in multiset(r);
      }
      SortedCons(s[0], r);
    }
  }

  lemma {:induction false} SortSorts(s: seq<real>)
    ensures Sorted(Sort(s)) && multiset(Sort(s)) == multiset(s)
  {
    if s != [] {
      var m := |s| - 1;
      SortSorts(s[..m]);
      InsertSorts(Sort(s[..m]), s[m]);
      InsertKeeps(Sort(s[..m]), s[m]);
      assert s == s[..m] + [s[m]];
    }
  }

  /** The kept samples are sorted, they are among the samples, and no sample left out is smaller
      than a kept one. */
  lemma BestAreSmallest(k: nat, samples: seq<real>)
    ensures Sorted(Best(k, samples)) && multiset(Best(k, samples)) <= multiset(samples)
    ensures forall x, y | x in multiset(samples) - multiset(Best(k, samples)) && y in Best(k, samples) :: y <= x
  {
    hide Sort;
    SortSorts(samples);
    FrontIsSmallest(Sort(samples), Min(k, |samples|));
  }

  lemma FrontIsSmallest(s: seq<real>, m: nat)
    requires Sorted(s) && m <= |s|
    ensures Sorted(s[..m]) && multiset(s[..m]) <= multiset(s)
    ensures forall x, y | x in multiset(s) - multiset(s[..m]) && y in s[..m] :: y <= x
  {
    assert s == s[..m] + s[m..];
    assert multiset(s) - multiset(s[..m]) == multiset(s[m..]);
    forall x, y | x in multiset(s[m..]) && y in s[..m] ensures y <= x {
      assert x in s[m..];
    }
  }

  /** Where an insertion ends up. */
  lemma {:induction false} InsertAt(s: seq<real>, v: real, p: nat)
    requires p <= |s| && (forall i | 0 <= i < p :: s[i] <= v) && (p < |s| ==> v < s[p])
    ensures Insert(s, v) == s[..p] + [v] + s[p..]
  {
    if p > 0 {
      InsertAt(s[1..], v, p - 1);
      assert s[..p] == [s[0]] + s[1..][..p - 1] && s[p..] == s[1..][p - 1..];
    }
  }

  lemma CutSame(v: real, s: seq<real>, m: nat)
    requires m <= |s|
    ensures ([v] + s)[..m] == ([v] + s[..m])[..m]
  {
    var a, b := ([v] + s)[..m], ([v] + s[..m])[..m];
    forall i | 0 <= i < m ensures a[i] == b[i] {
      if i > 0 { assert a[i] == s[i - 1] && b[i] == s[..m][i - 1]; }
    }
  }

  /** What falls off the end of a sorted list does not matter for what comes next. */
  lemma {:induction false} InsertPrefix(s: seq<real>, v: real, m: nat)
    requires m <= |s|
    ensures Insert(s[..m], v)[..m] == Insert(s, v)[..m]
  {
    if m > 0 {
      if v < s[0] {
        CutSame(v, s, m);
      } else {
        InsertPrefix(s[1..], v, m - 1);
        assert s[..m][1..] == s[1..][..m - 1];
        assert Insert(s, v)[..m] == [s[0]] + Insert(s[1..], v)[..m - 1];
      }
    }
  }

  /** The next sample changes the k best as an insertion into them does. */
  lemma BestStep(k: nat, samples: seq<real>, v: real)
    ensures Best(k, samples + [v]) == Insert(Best(k, samples), v)[..Min(k, |samples| + 1)]
  {
    var all := Sort(samples);
    assert (samples + [v])[..|samples|] == samples;
    assert Sort(samples + [v]) == Insert(all, v);
    if k <= |samples| {
      InsertPrefix(all, v, k);
    } else {
      assert all[..|samples|] == all;
    }
  }

  /** All values are within the factor of the first. */
  ghost predicate Within(s: seq<real>, factor: real) {
    forall x | x in s :: x <= factor * s[0]
  }

  lemma WithinIfLast(s: seq<real>, factor: real)
    requires s != [] && Sorted(s)
    ensures Within(s, factor) <==> s[|s| - 1] <= factor * s[0]
  {
    assert s[|s| - 1] in s;
    assert forall x | x in s :: x <= s[|s| - 1];
  }

  lemma ShiftedBy(r: seq<real>, s: seq<real>, v: real, p: nat)
    requires p <= |s| && |r| == |s| + 1 && r[p] == v
    requires forall i | 0 <= i < p :: r[i] == s[i]
    requires forall i | p < i <= |s| :: r[i] == s[i - 1]
    ensures r == s[..p] + [v] + s[p..]
  {
  }

  class Sampler {
    const kbest: nat
    const epsilon: real
    var values: array<real>
    var samplecount: nat
    ghost var samples: seq<real>

    ghost predicate Valid()
      reads this, values
    {
      && 0 < kbest == values.Length && samplecount == |samples|
      && values[..Min(kbest, samplecount)] == Best(kbest, samples)
    }

    /** init_sampler. */
    constructor (k: nat, eps: real)
      requires k > 0
      ensures Valid() && fresh(values) && kbest == k && epsilon == eps && samples == []
    {
      kbest, epsilon, samplecount, samples := k, eps, 0, [];
      values := new real[k](_ => 0.0);
    }

    /** The insertion sort of add_sample: the value at pos sinks to its place. */
    method Sink(pos0: nat)
      requires pos0 < values.Length && Sorted(values[..pos0])
      modifies values
      ensures values[..pos0 + 1] == Insert(old(values[..pos0]), old(values[pos0]))
    {
      var pos: int := pos0;
      ghost var s, v := values[..pos0], values[pos0];
      while pos > 0 && values[pos - 1] > values[pos]
        invariant 0 <= pos <= pos0 && values[pos] == v
        invariant forall i | 0 <= i < pos :: values[i] == s[i]
        invariant forall i | pos < i <= pos0 :: values[i] == s[i - 1]
        invariant forall i | pos <= i < pos0 :: v < s[i]
      {
        var temp := values[pos - 1];
        values[pos - 1] := values[pos];
        values[pos] := temp;
        pos := pos - 1;
      }
      InsertAt(s, v, pos);
      ShiftedBy(values[..pos0 + 1], s, v, pos);
    }

    /** What add_sample does to the array: the new value takes a free place or that of the largest,
        or is dropped, and sinks. */
    method Keep(val: real)
      requires 0 < kbest == values.Length && Sorted(values[..Min(kbest, samplecount)])
      modifies values
      ensures var m := Min(kbest, samplecount + 1);
        values[..m] == Insert(old(values[..Min(kbest, samplecount)]), val)[..m]
    {
      hide Insert;
      ghost var best := values[..Min(kbest, samplecount)];
      if samplecount < kbest {
        values[samplecount] := val;
        assert values[..samplecount] == best;
        Sink(samplecount);
      } else if val < values[kbest - 1] {
        values[kbest - 1] := val;
        Replaces(best, val);
        assert values[..kbest - 1] == best[..kbest - 1];
        Sink(kbest - 1);
      } else {
        InsertAt(best, val, kbest);
        assert (best + [val] + [])[..kbest] == best;
      }
    }

    /** add_sample. */
    method AddSample(val: real)
      requires Valid()
      modifies this`samplecount, this`samples, values
      ensures Valid() && samples == old(samples) + [val]
    {
      hide Best, Insert, Sorted;
      BestStep(kbest, samples, val);
      BestAreSmallest(kbest, samples);
      Keep(val);
      samplecount := samplecount + 1;
      samples := samples + [val];
    }

    /** has_converged: all of the k best lie within the factor 1 + epsilon of the smallest. */
    method HasConverged() returns (yes: bool)
      requires Valid()
      ensures yes == (samplecount >= kbest && Within(Best(kbest, samples), 1.0 + epsilon))
    {
      hide Best, Within;
      BestAreSmallest(kbest, samples);
      if samplecount >= kbest {
        assert values[..kbest] == Best(kbest, samples);
        WithinIfLast(values[..kbest], 1.0 + epsilon);
      }
      yes := samplecount >= kbest && (1.0 + epsilon) * values[0] >= values[kbest - 1];
    }
  }

  lemma Replaces(s: seq<real>, v: real)
    requires s != [] && Sorted(s) && v < s[|s| - 1]
    ensures Sorted(s[..|s| - 1]) && Insert(s, v)[..|s|] == Insert(s[..|s| - 1], v)
  {
    PlaceOf(s[..|s| - 1], v);
    var p :| IsPlace(s[..|s| - 1], v, p);
    InsertAt(s[..|s| - 1], v, p);
    InsertAt(s, v, p);
  }

  ghost predicate IsPlace(s: seq<real>, v: real, p: nat) {
    p <= |s| && (forall i | 0 <= i < p :: s[i] <= v) && (p < |s| ==> v < s[p])
  }

  lemma {:induction false} PlaceOf(s: seq<real>, v: real)
    requires Sorted(s)
    ensures exists p :: IsPlace(s, v, p)
  {
    if s == [] || s[|s| - 1] <= v {
      assert IsPlace(s, v, |s|);
    } else {
      var m := |s| - 1;
      PlaceOf(s[..m], v);
      var p :| IsPlace(s[..m], v, p);
      assert IsPlace(s, v, p);
    }
  }
}
