/**
  Running statistics of one name: smallest, largest and total of the values
  seen, and how many there were. Values are exact reals, so the order in
  which they arrive does not change the total.
 */
module Stats {

  datatype NameStats = NameStats(min: real, max: real, sum: real, count: nat)

  /** The statistics of a name seen once, with value `v`. */
  function First(v: real): (s: NameStats)
    ensures Valid(s) && s.count == 1
    ensures s.min == v && s.max == v && s.sum == v
  {
    NameStats(v, v, v, 1)
  }

  /** Widens `s` by one more observation `v`. */
  function Add(s: NameStats, v: real): (r: NameStats)
    ensures r.count == s.count + 1 && r.sum == s.sum + v
    ensures r.min <= v <= r.max
    ensures r.min <= s.min && s.max <= r.max
    ensures r.min == s.min || r.min == v
    ensures r.max == s.max || r.max == v
  {
    NameStats(if v < s.min then v else s.min,
          if v > s.max then v else s.max,
          s.sum + v,
          s.count + 1)
  }

  /**
    What every stored entry satisfies: it was seen at least once, its bounds
    are ordered, and its total lies between count times each bound.
   */
  predicate Valid(s: NameStats) {
    && s.count >= 1
    && s.min <= s.max
    && s.count as real * s.min <= s.sum <= s.count as real * s.max
  }

  /** Adding an observation keeps an entry valid. */
  lemma AddValid(s: NameStats, v: real)
    requires Valid(s)
    ensures Valid(Add(s, v))
  {
    var r := Add(s, v);
    var c := s.count as real;
    assert c * r.min <= c * s.min by { MulMonotone(c, r.min, s.min); }
    assert c * s.max <= c * r.max by { MulMonotone(c, s.max, r.max); }
    assert r.count as real == c + 1.0;
    assert (c + 1.0) * r.min == c * r.min + r.min;
    assert (c + 1.0) * r.max == c * r.max + r.max;
    assert s.sum <= c * s.max;
    assert r.sum <= c * r.max + r.max;
  }

  lemma MulMonotone(c: real, a: real, b: real)
    requires c >= 0.0 && a <= b
    ensures c * a <= c * b
  {
  }

  /** Two observations may be added in either order. */
  lemma AddCommutes(s: NameStats, v: real, w: real)
    ensures Add(Add(s, v), w) == Add(Add(s, w), v)
  {
  }

  /** Starting from either of two observations gives the same entry. */
  lemma FirstCommutes(v: real, w: real)
    ensures Add(First(v), w) == Add(First(w), v)
  {
  }

  /** The mean of the observations of an entry. */
  function Average(s: NameStats): real
    requires s.count >= 1
  {
    s.sum / s.count as real
  }

  /** The mean of a valid entry lies between its bounds. */
  lemma AverageBetweenBounds(s: NameStats)
    requires Valid(s)
    ensures s.min <= Average(s) <= s.max
  {
    var c := s.count as real;
    assert c > 0.0;
    assert Average(s) * c == s.sum;
  }

  // ---------------------------------------------------------------------------
  // Reference definition: the statistics of a whole list of values
  // ---------------------------------------------------------------------------

  function Sum(vs: seq<real>): real {
    if |vs| == 0 then 0.0 else Sum(vs[..|vs| - 1]) + vs[|vs| - 1]
  }

  /**
    `s` summarises the non-empty list `vs`: it counts and totals them, its
    bounds are values from the list and every value lies between them.
   */
  ghost predicate Summarises(s: NameStats, vs: seq<real>) {
    && s.count == |vs|
    && s.sum == Sum(vs)
    && s.min in vs && s.max in vs
    && forall i :: 0 <= i < |vs| ==> s.min <= vs[i] <= s.max
  }

  /** Adding a value to a summary summarises the longer list. */
  lemma AddSummarises(s: NameStats, vs: seq<real>, v: real)
    requires Summarises(s, vs)
    ensures Summarises(Add(s, v), vs + [v])
  {
    var ws := vs + [v];
    assert ws[..|ws| - 1] == vs;
    var r := Add(s, v);
    assert r.min in ws by {
      if r.min == v { assert ws[|vs|] == v; } else { assert r.min == s.min; }
    }
    assert r.max in ws by {
      if r.max == v { assert ws[|vs|] == v; } else { assert r.max == s.max; }
    }
    forall i | 0 <= i < |ws| ensures r.min <= ws[i] <= r.max {
      if i < |vs| { assert ws[i] == vs[i]; }
    }
  }

  /** A single observation is summarised by its first entry. */
  lemma FirstSummarises(v: real)
    ensures Summarises(First(v), [v])
  {
    assert [v][..0] == [];
  }

  /** A list of values has at most one summary. */
  lemma SummaryUnique(s: NameStats, t: NameStats, vs: seq<real>)
    requires Summarises(s, vs) && Summarises(t, vs)
    ensures s == t
  {
    var i :| 0 <= i < |vs| && vs[i] == s.min;
    var j :| 0 <= j < |vs| && vs[j] == t.min;
    var k :| 0 <= k < |vs| && vs[k] == s.max;
    var l :| 0 <= l < |vs| && vs[l] == t.max;
  }

  /** A summary has the invariant of a stored entry. */
  lemma SummaryIsValid(s: NameStats, vs: seq<real>)
    requires Summarises(s, vs) && |vs| >= 1
    ensures Valid(s)
  {
    SumBetweenBounds(vs, s.min, s.max);
  }

  lemma {:induction false} SumBetweenBounds(vs: seq<real>, lo: real, hi: real)
    requires forall i :: 0 <= i < |vs| ==> lo <= vs[i] <= hi
    ensures |vs| as real * lo <= Sum(vs) <= |vs| as real * hi
  {
    if |vs| > 0 {
      var init := vs[..|vs| - 1];
      assert forall i :: 0 <= i < |init| ==> init[i] == vs[i];
      SumBetweenBounds(init, lo, hi);
    }
  }
}
