/** What one group accumulates, and what the five aggregates read from it. */
module Tallies {
  import opened Wrappers
  import opened Ordered

  datatype AggregateOp = Count | Sum | Min | Max | Avg

  /** A running extreme, before and after the first sample. */
  datatype Extreme = NegInf | Fin(val: real) | PosInf

  datatype Tally = Tally(count: nat, sum: real, min: Extreme, max: Extreme) {
    function Add(v: real): Tally {
      Tally(count + 1, sum + v, Lesser(min, Fin(v)), Greater(max, Fin(v)))
    }

    /** What the tally amounts to; only a count exists without samples. */
    function Value(op: AggregateOp): Option<real> {
      if count == 0 then (if op.Count? then Some(0.0) else None)
      else
        match op
        case Count => Some(count as real)
        case Sum => Some(sum)
        case Min => Finite(min)
        case Max => Finite(max)
        case Avg => Some(sum / count as real)
    }

    /** Two fragments of one group, taken together. */
    function Merge(other: Tally): Tally {
      Tally(count + other.count, sum + other.sum, Lesser(min, other.min), Greater(max, other.max))
    }
  }

  function Finite(e: Extreme): Option<real> {
    if e.Fin? then Some(e.val) else None
  }

  function Lesser(a: Extreme, b: Extreme): Extreme {
    if a.NegInf? || b.PosInf? then a
    else if b.NegInf? || a.PosInf? then b
    else if a.val <= b.val then a else b
  }

  function Greater(a: Extreme, b: Extreme): Extreme {
    if a.PosInf? || b.NegInf? then a
    else if b.PosInf? || a.NegInf? then b
    else if a.val <= b.val then b else a
  }

  function NoSamples(): Tally {
    Tally(0, 0.0, PosInf, NegInf)
  }

  function TallyOf(vs: seq<real>): Tally {
    if vs == [] then NoSamples() else TallyOf(vs[..|vs| - 1]).Add(vs[|vs| - 1])
  }

  lemma TallySnoc(vs: seq<real>, v: real)
    ensures TallyOf(vs + [v]) == TallyOf(vs).Add(v)
  {
    hide Tally.Add;
    assert (vs + [v])[..|vs|] == vs;
  }

  // ---- What a tally means ----

  function SumOf(vs: seq<real>): real {
    if vs == [] then 0.0 else vs[0] + SumOf(vs[1..])
  }

  ghost predicate IsLeast(m: real, vs: seq<real>) {
    m in vs && forall i :: 0 <= i < |vs| ==> m <= vs[i]
  }

  ghost predicate IsGreatest(m: real, vs: seq<real>) {
    m in vs && forall i :: 0 <= i < |vs| ==> vs[i] <= m
  }

  /** The value an aggregate promises for the samples `vs`. */
  ghost predicate IsAggregate(op: AggregateOp, vs: seq<real>, value: Option<real>) {
    match op
    case Count => value == Some(|vs| as real)
    case Sum => value == if vs == [] then None else Some(SumOf(vs))
    case Min => if vs == [] then value.None? else value.Some? && IsLeast(value.value, vs)
    case Max => if vs == [] then value.None? else value.Some? && IsGreatest(value.value, vs)
    case Avg => if vs == [] then value.None? else value.Some? && value.value * |vs| as real == SumOf(vs)
  }

  lemma {:induction false} SumSnoc(vs: seq<real>, v: real)
    ensures SumOf(vs + [v]) == SumOf(vs) + v
  {
    if vs == [] {
    } else {
      SumSnoc(vs[1..], v);
      assert (vs + [v])[1..] == vs[1..] + [v];
    }
  }

  lemma {:induction false} TallySum(vs: seq<real>)
    ensures TallyOf(vs).count == |vs| && TallyOf(vs).sum == SumOf(vs)
  {
    if vs != [] {
      var n := |vs| - 1;
      TallySum(vs[..n]);
      SumSnoc(vs[..n], vs[n]);
      assert vs == vs[..n] + [vs[n]];
    }
  }

  ghost predicate ExtremesOf(t: Tally, vs: seq<real>) {
    if vs == [] then t.min.PosInf? && t.max.NegInf?
    else t.min.Fin? && IsLeast(t.min.val, vs) && t.max.Fin? && IsGreatest(t.max.val, vs)
  }

  lemma AddExtremes(t: Tally, vs: seq<real>, v: real)
    requires ExtremesOf(t, vs)
    ensures ExtremesOf(t.Add(v), vs + [v])
  {
    assert (vs + [v])[|vs|] == v;
    assert forall x :: x in vs ==> x in vs + [v];
  }

  lemma {:induction false} TallyExtremes(vs: seq<real>)
    ensures ExtremesOf(TallyOf(vs), vs)
  {
    if vs != [] {
      var n := |vs| - 1;
      TallyExtremes(vs[..n]);
      AddExtremes(TallyOf(vs[..n]), vs[..n], vs[n]);
      assert vs == vs[..n] + [vs[n]];
    }
  }

  /** Folding samples one at a time yields the aggregate of them all, for every op. */
  lemma TallyMeaning(op: AggregateOp, vs: seq<real>)
    ensures IsAggregate(op, vs, TallyOf(vs).Value(op))
  {
    TallySum(vs);
    TallyExtremes(vs);
    if vs != [] { AverageTimesCount(SumOf(vs), |vs| as real); }
  }

  lemma AverageTimesCount(sum: real, count: real)
    requires count != 0.0
    ensures sum / count * count == sum
  {
  }

  // ---- Merging and reordering ----

  lemma MergeEmpty(a: Tally)
    ensures NoSamples().Merge(a) == a
    ensures a.Merge(NoSamples()) == a
  {
  }

  lemma MergeAssoc(a: Tally, b: Tally, c: Tally)
    ensures a.Merge(b).Merge(c) == a.Merge(b.Merge(c))
  {
  }

  lemma MergeAdd(a: Tally, b: Tally, v: real)
    ensures a.Merge(b.Add(v)) == a.Merge(b).Add(v)
  {
  }

  lemma AddCommutes(a: Tally, v: real, w: real)
    ensures a.Add(v).Add(w) == a.Add(w).Add(v)
  {
  }

  /** A sample may as well have been added last. */
  lemma {:induction false} MoveLast(a: seq<real>, x: real, b: seq<real>)
    ensures TallyOf(a + [x] + b) == TallyOf(a + b).Add(x)
  {
    hide Tally.Add;
    if b == [] {
      assert a + [x] + b == a + [x] && a + b == a;
      TallySnoc(a, x);
    } else {
      var n := |b| - 1;
      MoveLast(a, x, b[..n]);
      assert a + [x] + b == (a + [x] + b[..n]) + [b[n]] && a + b == (a + b[..n]) + [b[n]];
      TallySnoc(a + [x] + b[..n], b[n]);
      TallySnoc(a + b[..n], b[n]);
      AddCommutes(TallyOf(a + b[..n]), x, b[n]);
    }
  }

  /** A tally depends on its samples only as a multiset. */
  lemma {:induction false} TallyOfPermutation(a: seq<real>, b: seq<real>)
    requires multiset(a) == multiset(b)
    ensures TallyOf(a) == TallyOf(b)
    decreases |a|
  {
    hide Tally.Add;
    if a == [] {
      assert |b| == |multiset(b)| == 0;
    } else {
      var n := |a| - 1;
      var i := TakeOut(a, b);
      TallyOfPermutation(a[..n], b[..i] + b[i + 1..]);
      MoveLast(b[..i], b[i], b[i + 1..]);
    }
  }
}
