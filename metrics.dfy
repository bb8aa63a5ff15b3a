/** Evaluation metrics (pyfoal/evaluate/metrics.py): accumulators for
    phoneme-duration accuracy, L1 duration error and the training loss, and
    the aggregate that reports them. Durations are compared pair by pair
    over the non-silent phonemes of a predicted and a target alignment. */
module Evaluate {
  import opened Common

  /** The default tolerance levels of `Accuracy`, in seconds. */
  const DefaultLevels: seq<real> := [0.01, 0.005, 0.0025, 0.00125]

  function Abs(x: real): real
  {
    if x < 0.0 then -x else x
  }

  /** The durations of the phonemes whose symbol is not `<silent>`, in order. */
  function Spoken(phones: seq<Phone>): (d: seq<real>)
    ensures |d| <= |phones|
  {
    if |phones| == 0 then []
    else
      var last := phones[|phones| - 1];
      Spoken(phones[..|phones| - 1]) + (if last.symbol != Silent then [last.duration] else [])
  }

  /** Filtering distributes over concatenation. */
  lemma {:induction false} SpokenAppend(a: seq<Phone>, b: seq<Phone>)
    ensures Spoken(a + b) == Spoken(a) + Spoken(b)
  {
    if |b| > 0 {
      assert (a + b)[..|a + b| - 1] == a + b[..|b| - 1];
      SpokenAppend(a, b[..|b| - 1]);
    } else {
      assert a + b == a;
    }
  }

  /** Without silences every duration is kept. */
  lemma {:induction false} SpokenAll(phones: seq<Phone>)
    requires forall k :: 0 <= k < |phones| ==> phones[k].symbol != Silent
    ensures Spoken(phones) == Durations(phones)
  {
    if |phones| > 0 {
      SpokenAll(phones[..|phones| - 1]);
      assert Durations(phones) == Durations(phones[..|phones| - 1]) + [phones[|phones| - 1].duration];
    }
  }

  /** A tensor of length n and one of length m broadcast against each
      other exactly when the lengths agree or one of them is 1. */
  predicate Broadcastable(n: nat, m: nat)
  {
    n == m || n == 1 || m == 1
  }

  /** `predicted - target` on 1-D tensors: elementwise, a length-1 operand
      broadcast against the other, and a RuntimeError otherwise. */
  function Subtract(p: seq<real>, t: seq<real>): (r: Result<seq<real>>)
    ensures r.Ok? <==> Broadcastable(|p|, |t|)
    ensures r.Err? ==> r.error == RuntimeError
    ensures r.Ok? && |p| == |t| ==> |r.value| == |p| && forall k :: 0 <= k < |p| ==> r.value[k] == p[k] - t[k]
    ensures r.Ok? && |p| != |t| ==> |r.value| == (if |p| == 1 then |t| else |p|)
  {
    if |p| == |t| then Ok(seq(|p|, k requires 0 <= k < |p| => p[k] - t[k]))
    else if |p| == 1 then Ok(seq(|t|, k requires 0 <= k < |t| => p[0] - t[k]))
    else if |t| == 1 then Ok(seq(|p|, k requires 0 <= k < |p| => p[k] - t[0]))
    else Err(RuntimeError)
  }

  /** `sum(torch.abs(d) < level)`: how many differences are within the level. */
  function Hits(d: seq<real>, level: real): (h: nat)
    ensures h <= |d|
  {
    if |d| == 0 then 0
    else Hits(d[..|d| - 1], level) + (if Abs(d[|d| - 1]) < level then 1 else 0)
  }

  /** A wider tolerance never counts fewer hits. */
  lemma {:induction false} HitsMonotone(d: seq<real>, a: real, b: real)
    requires a <= b
    ensures Hits(d, a) <= Hits(d, b)
  {
    if |d| > 0 {
      HitsMonotone(d[..|d| - 1], a, b);
    }
  }

  /** `torch.abs(d).sum()`. */
  function AbsSum(d: seq<real>): (s: real)
    ensures s >= 0.0
  {
    if |d| == 0 then 0.0 else AbsSum(d[..|d| - 1]) + Abs(d[|d| - 1])
  }

  /** Python's `zip`: pairs up to the shorter length. */
  function Zip<A, B>(a: seq<A>, b: seq<B>): (r: seq<(A, B)>)
    ensures |r| == (if |a| < |b| then |a| else |b|)
    ensures forall k :: 0 <= k < |r| ==> r[k] == (a[k], b[k])
  {
    var n := if |a| < |b| then |a| else |b|;
    seq(n, k requires 0 <= k < n => (a[k], b[k]))
  }

  function LevelSet(levels: seq<real>): set<real>
  {
    set l | l in levels
  }

  /** `{level: 0. for level in levels}`. */
  function ZeroTotals(levels: seq<real>): (m: map<real, nat>)
    ensures m.Keys == LevelSet(levels)
    ensures forall l :: l in m ==> m[l] == 0
  {
    map l | l in levels :: 0
  }

  /** The accuracy counters: `count` and the per-level `totals`. */
  datatype Tally = Tally(count: nat, totals: map<real, nat>)

  /** Every level has a total. */
  ghost predicate Keyed(levels: seq<real>, totals: map<real, nat>)
  {
    forall k :: 0 <= k < |levels| ==> levels[k] in totals
  }

  /** The totals of the level loop of `Accuracy.update` for one pair with
      differences d: each level, in order, gains its hits. */
  function AddHits(levels: seq<real>, totals: map<real, nat>, d: seq<real>): (r: map<real, nat>)
    requires Keyed(levels, totals)
    ensures r.Keys == totals.Keys
    decreases |levels|
  {
    if |levels| == 0 then totals
    else
      var l := levels[0];
      assert Keyed(levels[1..], totals) by {
        assert forall k :: 0 <= k < |levels| - 1 ==> levels[1..][k] == levels[k + 1];
      }
      AddHits(levels[1..], totals[l := totals[l] + Hits(d, l)], d)
  }

  /** One (alignment, target) pair of `Accuracy.update`. The subtraction
      only happens inside the level loop, so with no levels nothing can
      fail. As written (metrics.py:78) `count += n` sits inside that loop
      and so adds n once per level; corrected, it adds n once. */
  function AccuracyPair(levels: seq<real>, t: Tally, predicted: seq<Phone>, target: seq<Phone>, asWritten: bool): (r: Result<Tally>)
    requires Keyed(levels, t.totals)
    ensures r.Ok? ==> r.value.totals.Keys == t.totals.Keys
    ensures r.Err? <==> |levels| > 0 && !Broadcastable(|Spoken(predicted)|, |Spoken(target)|)
  {
    if |levels| == 0 then Ok(t)
    else
      var p := Spoken(predicted);
      var d :- Subtract(p, Spoken(target));
      Ok(Tally(t.count + (if asWritten then |levels| * |p| else |p|), AddHits(levels, t.totals, d)))
  }

  /** `Accuracy.update` over the zipped pairs: the counters after the
      pairs processed, and the error of the pair that raised, if any. */
  function AccuracyRun(levels: seq<real>, t: Tally, pairs: seq<(seq<Phone>, seq<Phone>)>, asWritten: bool): (r: (Tally, Option<Error>))
    requires Keyed(levels, t.totals)
    ensures r.0.totals.Keys == t.totals.Keys
    decreases |pairs|
  {
    if |pairs| == 0 then (t, None)
    else
      match AccuracyPair(levels, t, pairs[0].0, pairs[0].1, asWritten)
      case Err(e) => (t, Some(e))
      case Ok(next) => AccuracyRun(levels, next, pairs[1..], asWritten)
  }

  /** Whether one pair turns the accuracy totals into tensors. Python's
      `sum` over the boolean tensor `|predicted - target| < level` is the
      int 0 when the difference is empty, so a float total stays a float;
      a non-empty difference makes it a tensor. The difference is non-empty
      exactly when both duration lists are and they broadcast. */
  predicate PairTensor(levels: seq<real>, predicted: seq<Phone>, target: seq<Phone>)
  {
    && |levels| > 0
    && Broadcastable(|Spoken(predicted)|, |Spoken(target)|)
    && |Spoken(predicted)| > 0 && |Spoken(target)| > 0
  }

  /** Whether some pair `Accuracy.update` processes, before the first one
      that raises, turns the totals into tensors. */
  predicate TensorRun(levels: seq<real>, pairs: seq<(seq<Phone>, seq<Phone>)>)
    decreases |pairs|
  {
    && |pairs| > 0 && |levels| > 0
    && Broadcastable(|Spoken(pairs[0].0)|, |Spoken(pairs[0].1)|)
    && (PairTensor(levels, pairs[0].0, pairs[0].1) || TensorRun(levels, pairs[1..]))
  }

  /** Totals become tensors only by counting predicted durations: after a
      run that makes them tensors the corrected count is positive. */
  lemma {:induction false} TensorRunCounts(levels: seq<real>, t: Tally, pairs: seq<(seq<Phone>, seq<Phone>)>)
    requires Keyed(levels, t.totals) && TensorRun(levels, pairs)
    ensures AccuracyRun(levels, t, pairs, false).0.count > 0
    decreases |pairs|
  {
    var next := AccuracyPair(levels, t, pairs[0].0, pairs[0].1, false).value;
    assert Keyed(levels, next.totals);
    if PairTensor(levels, pairs[0].0, pairs[0].1) {
      RunKeepsCount(levels, next, pairs[1..]);
    } else {
      TensorRunCounts(levels, next, pairs[1..]);
    }
  }

  /** The corrected count never falls over a run. */
  lemma {:induction false} RunKeepsCount(levels: seq<real>, t: Tally, pairs: seq<(seq<Phone>, seq<Phone>)>)
    requires Keyed(levels, t.totals)
    ensures AccuracyRun(levels, t, pairs, false).0.count >= t.count
    decreases |pairs|
  {
    if |pairs| > 0 {
      var r := AccuracyPair(levels, t, pairs[0].0, pairs[0].1, false);
      if r.Ok? {
        assert Keyed(levels, r.value.totals);
        RunKeepsCount(levels, r.value, pairs[1..]);
      }
    }
  }

  /** A pair with one spoken predicted phoneme and no spoken target phoneme
      broadcasts to an empty difference: it adds 1 to the corrected count
      but leaves the totals floats, so `__call__` then calls `.item()` on a
      float. */
  lemma EmptyDifferenceKeepsFloats()
    ensures var pair := ([Phone("a", 0.5)], []);
      && AccuracyRun(DefaultLevels, Tally(0, ZeroTotals(DefaultLevels)), [pair], false).0.count == 1
      && !TensorRun(DefaultLevels, [pair])
  {
    var pair: (seq<Phone>, seq<Phone>) := ([Phone("a", 0.5)], []);
    assert Spoken(pair.0) == [0.5];
    assert Spoken(pair.1) == [];
    LevelsKeyed(DefaultLevels, ZeroTotals(DefaultLevels));
    assert [pair][1..] == [];
  }

  predicate Distinct(levels: seq<real>)
  {
    forall a, b :: 0 <= a < b < |levels| ==> levels[a] != levels[b]
  }

  /** Every pair has as many predicted as target durations. */
  predicate Matched(pairs: seq<(seq<Phone>, seq<Phone>)>)
  {
    forall k :: 0 <= k < |pairs| ==> |Spoken(pairs[k].0)| == |Spoken(pairs[k].1)|
  }

  /** Each total, multiplied by scale, is at most the count: the reported
      accuracy `total / count` is at most 1/scale. */
  ghost predicate Bounded(t: Tally, scale: nat)
  {
    forall l :: l in t.totals ==> t.totals[l] * scale <= t.count
  }

  /** A tighter level never has the larger total. */
  ghost predicate Monotone(t: Tally)
  {
    forall a, b :: a in t.totals && b in t.totals && a <= b ==> t.totals[a] <= t.totals[b]
  }

  lemma MulMonotone(a: nat, b: nat, c: nat)
    requires a <= b
    ensures a * c <= b * c
  {
  }

  /** With distinct levels each level gains its hits exactly once and
      every other total is unchanged. */
  lemma {:induction false} AddHitsEffect(levels: seq<real>, totals: map<real, nat>, d: seq<real>, l: real)
    requires Keyed(levels, totals) && Distinct(levels) && l in totals
    ensures AddHits(levels, totals, d)[l] == totals[l] + (if l in levels then Hits(d, l) else 0)
    decreases |levels|
  {
    if |levels| > 0 {
      var x := levels[0];
      var rest := levels[1..];
      assert Keyed(rest, totals) by {
        assert forall k :: 0 <= k < |rest| ==> rest[k] == levels[k + 1];
      }
      assert Distinct(rest) by {
        assert forall k :: 0 <= k < |rest| ==> rest[k] == levels[k + 1];
      }
      var next := totals[x := totals[x] + Hits(d, x)];
      AddHitsEffect(rest, next, d, l);
      assert x !in rest by {
        assert forall k :: 0 <= k < |rest| ==> rest[k] == levels[k + 1];
      }
      assert levels == [x] + rest;
      assert (l in levels) == (l == x || l in rest);
    }
  }

  /** Adding at most n hits to a total and scale·n to the count keeps
      the bound. */
  lemma BoundStep(a: nat, h: nat, n: nat, scale: nat, c: nat)
    requires a * scale <= c && h <= n
    ensures (a + h) * scale <= c + scale * n
  {
    MulMonotone(h, n, scale);
    assert (a + h) * scale == a * scale + h * scale;
  }

  /** One pair keeps the counters bounded by their scale (1 corrected,
      the number of levels as written) and monotone in the level. */
  lemma PairKeeps(levels: seq<real>, t: Tally, predicted: seq<Phone>, target: seq<Phone>, asWritten: bool)
    requires Keyed(levels, t.totals) && t.totals.Keys <= LevelSet(levels) && Distinct(levels)
    requires |Spoken(predicted)| == |Spoken(target)|
    requires Bounded(t, if asWritten then |levels| else 1) && Monotone(t)
    ensures AccuracyPair(levels, t, predicted, target, asWritten).Ok?
    ensures var r := AccuracyPair(levels, t, predicted, target, asWritten).value;
      Bounded(r, if asWritten then |levels| else 1) && Monotone(r)
  {
    if |levels| > 0 {
      var p := Spoken(predicted);
      var d := Subtract(p, Spoken(target)).value;
      var scale := if asWritten then |levels| else 1;
      var totals := AddHits(levels, t.totals, d);
      HitsKeep(levels, t, d, scale);
      assert AccuracyPair(levels, t, predicted, target, asWritten).value == Tally(t.count + scale * |p|, totals);
    }
  }

  /** The totals after the level loop over differences d, with the count
      advanced by scale·|d|, keep both invariants. */
  lemma HitsKeep(levels: seq<real>, t: Tally, d: seq<real>, scale: nat)
    requires Keyed(levels, t.totals) && t.totals.Keys <= LevelSet(levels) && Distinct(levels)
    requires Bounded(t, scale) && Monotone(t)
    ensures var r := Tally(t.count + scale * |d|, AddHits(levels, t.totals, d));
      Bounded(r, scale) && Monotone(r)
  {
    HitsKeepBound(levels, t, d, scale);
    HitsKeepOrder(levels, t, d, t.count + scale * |d|);
  }

  lemma HitsKeepBound(levels: seq<real>, t: Tally, d: seq<real>, scale: nat)
    requires Keyed(levels, t.totals) && Distinct(levels) && Bounded(t, scale)
    ensures Bounded(Tally(t.count + scale * |d|, AddHits(levels, t.totals, d)), scale)
  {
    var totals := AddHits(levels, t.totals, d);
    forall l | l in totals
      ensures totals[l] * scale <= t.count + scale * |d|
    {
      AddHitsEffect(levels, t.totals, d, l);
      var h := if l in levels then Hits(d, l) else 0;
      BoundStep(t.totals[l], h, |d|, scale, t.count);
    }
  }

  lemma HitsKeepOrder(levels: seq<real>, t: Tally, d: seq<real>, c: nat)
    requires Keyed(levels, t.totals) && t.totals.Keys <= LevelSet(levels) && Distinct(levels) && Monotone(t)
    ensures Monotone(Tally(c, AddHits(levels, t.totals, d)))
  {
    var totals := AddHits(levels, t.totals, d);
    forall a, b | a in totals && b in totals && a <= b
      ensures totals[a] <= totals[b]
    {
      AddHitsEffect(levels, t.totals, d, a);
      AddHitsEffect(levels, t.totals, d, b);
      HitsMonotone(d, a, b);
    }
  }

  /** Over matched pairs no error is raised and the invariants hold
      after the whole run. */
  lemma {:induction false} RunKeeps(levels: seq<real>, t: Tally, pairs: seq<(seq<Phone>, seq<Phone>)>, asWritten: bool)
    requires Keyed(levels, t.totals) && t.totals.Keys <= LevelSet(levels) && Distinct(levels) && Matched(pairs)
    requires Bounded(t, if asWritten then |levels| else 1) && Monotone(t)
    ensures var r := AccuracyRun(levels, t, pairs, asWritten);
      r.1 == None && Bounded(r.0, if asWritten then |levels| else 1) && Monotone(r.0)
    decreases |pairs|
  {
    if |pairs| > 0 {
      PairKeeps(levels, t, pairs[0].0, pairs[0].1, asWritten);
      var next := AccuracyPair(levels, t, pairs[0].0, pairs[0].1, asWritten).value;
      assert Matched(pairs[1..]) by {
        assert forall k :: 0 <= k < |pairs| - 1 ==> pairs[1..][k] == pairs[k + 1];
      }
      RunKeeps(levels, next, pairs[1..], asWritten);
    }
  }

  /** The totals keyed by exactly the levels have a total for each level. */
  lemma LevelsKeyed(levels: seq<real>, totals: map<real, nat>)
    requires totals.Keys == LevelSet(levels)
    ensures Keyed(levels, totals) && totals.Keys <= LevelSet(levels)
  {
    assert forall k :: 0 <= k < |levels| ==> levels[k] in LevelSet(levels);
  }

  /** As written, one exactly predicted phoneme with the default levels
      gives count 4 and total 1 at every level: each accuracy reads 0.25
      where 1.0 is meant; with the count moved out of the loop it reads 1.0. */
  lemma AsWrittenUndercounts()
    ensures var pair := ([Phone("a", 1.0)], [Phone("a", 1.0)]);
      var zero := Tally(0, ZeroTotals(DefaultLevels));
      && AccuracyRun(DefaultLevels, zero, [pair], true).0.count == 4
      && AccuracyRun(DefaultLevels, zero, [pair], true).0.totals[0.01] == 1
      && AccuracyRun(DefaultLevels, zero, [pair], false).0.count == 1
      && AccuracyRun(DefaultLevels, zero, [pair], false).0.totals[0.01] == 1
  {
    var phones := [Phone("a", 1.0)];
    var pairs: seq<(seq<Phone>, seq<Phone>)> := [(phones, phones)];
    assert pairs[1..] == [];
    OneExactPair(true);
    OneExactPair(false);
  }

  /** The one pair of `AsWrittenUndercounts`: its difference is within
      the tightest level, and the count grows by the number of levels as
      written, by one when corrected. */
  lemma OneExactPair(asWritten: bool)
    ensures var phones := [Phone("a", 1.0)];
      var r := AccuracyPair(DefaultLevels, Tally(0, ZeroTotals(DefaultLevels)), phones, phones, asWritten);
      && r.Ok? && r.value.count == (if asWritten then 4 else 1)
      && 0.01 in r.value.totals && r.value.totals[0.01] == 1
  {
    OneExactDifference();
    var zero := ZeroTotals(DefaultLevels);
    LevelsKeyed(DefaultLevels, zero);
    assert Distinct(DefaultLevels);
    assert 0.01 in zero;
    AddHitsEffect(DefaultLevels, zero, [0.0], 0.01);
  }

  /** One phoneme predicted exactly: a zero difference, within 0.01. */
  lemma OneExactDifference()
    ensures Spoken([Phone("a", 1.0)]) == [1.0]
    ensures Subtract([1.0], [1.0]) == Ok([0.0])
    ensures Hits([0.0], 0.01) == 1
  {
    var phones := [Phone("a", 1.0)];
    assert phones[..0] == [];
    var r := Subtract([1.0], [1.0]);
    assert r.Ok? && |r.value| == 1 && r.value[0] == 0.0;
    assert r.value == [0.0];
    var d: seq<real> := [0.0];
    assert d[..0] == [];
  }

  /** Phoneme-duration accuracy at several tolerance levels. The update is
      the corrected one: `count` grows by the number of predicted durations
      once per pair. */
  /** The level loop of `Accuracy.update` for one pair with differences d:
      in order, each level's total gains its hits. */
  method LevelLoop(levels: seq<real>, totals: map<real, nat>, d: seq<real>) returns (sums: map<real, nat>)
    requires totals.Keys == LevelSet(levels)
    ensures Keyed(levels, totals) && sums == AddHits(levels, totals, d)
    ensures sums.Keys == LevelSet(levels)
  {
    LevelsKeyed(levels, totals);
    sums := totals;
    var k := 0;
    while k < |levels|
      invariant 0 <= k <= |levels| && sums.Keys == LevelSet(levels)
      invariant Keyed(levels[k..], sums)
      invariant AddHits(levels, totals, d) == AddHits(levels[k..], sums, d)
    {
      assert levels[k..][0] == levels[k] && levels[k..][1..] == levels[k + 1..];
      assert levels[k] in LevelSet(levels);
      sums := sums[levels[k] := sums[levels[k]] + Hits(d, levels[k])];
      k := k + 1;
    }
    assert levels[k..] == [];
  }

  class Accuracy {
    const levels: seq<real>
    var count: nat
    var totals: map<real, nat>
    /** Whether the totals have become tensors (see `PairTensor`). */
    var tensor: bool

    ghost predicate Valid()
      reads this
    {
      totals.Keys == LevelSet(levels) && (tensor ==> count > 0)
    }

    constructor(levels: seq<real>)
      ensures this.levels == levels && count == 0 && totals == ZeroTotals(levels) && !tensor && Valid()
    {
      this.levels := levels;
      count := 0;
      totals := ZeroTotals(levels);
      tensor := false;
    }

    method Reset()
      modifies this
      ensures count == 0 && totals == ZeroTotals(levels) && !tensor && Valid()
    {
      count := 0;
      totals := ZeroTotals(levels);
      tensor := false;
    }

    /** One pair: with no levels nothing happens; otherwise a pair whose
        durations do not broadcast raises before anything is counted, and
        a matching pair adds each level's hits and then the number of
        predicted durations to the count. */
    method UpdatePair(predicted: seq<Phone>, target: seq<Phone>) returns (e: Option<Error>)
      requires Valid()
      modifies this
      ensures Valid()
      ensures var r := AccuracyPair(levels, Tally(old(count), old(totals)), predicted, target, false);
        && (r.Ok? ==> e == None && Tally(count, totals) == r.value)
        && (r.Err? ==> e == Some(r.error) && count == old(count) && totals == old(totals))
      ensures tensor == (old(tensor) || PairTensor(levels, predicted, target))
    {
      LevelsKeyed(levels, totals);
      if |levels| == 0 {
        return None;
      }
      var p := Spoken(predicted);
      var d := Subtract(p, Spoken(target));
      if d.Err? {
        return Some(d.error);
      }
      var sums := LevelLoop(levels, totals, d.value);
      assert |d.value| > 0 <==> |p| > 0 && |Spoken(target)| > 0;
      totals, count, tensor := sums, count + |p|, tensor || |d.value| > 0;
      e := None;
    }

    /** Processes the zipped pairs in order; on a pair whose durations do
        not broadcast the error is returned with the earlier pairs
        already counted. */
    method Update(alignments: seq<seq<Phone>>, targets: seq<seq<Phone>>) returns (e: Option<Error>)
      requires Valid()
      modifies this
      ensures Valid()
      ensures (Tally(count, totals), e) == AccuracyRun(levels, Tally(old(count), old(totals)), Zip(alignments, targets), false)
      ensures tensor == (old(tensor) || TensorRun(levels, Zip(alignments, targets)))
    {
      LevelsKeyed(levels, totals);
      var pairs := Zip(alignments, targets);
      var i := 0;
      while i < |pairs|
        invariant 0 <= i <= |pairs| && Valid() && Keyed(levels, totals)
        invariant AccuracyRun(levels, Tally(old(count), old(totals)), pairs, false)
               == AccuracyRun(levels, Tally(count, totals), pairs[i..], false)
        invariant (old(tensor) || TensorRun(levels, pairs)) == (tensor || TensorRun(levels, pairs[i..]))
      {
        assert pairs[i..][0] == pairs[i] && pairs[i..][1..] == pairs[i + 1..];
        e := UpdatePair(pairs[i].0, pairs[i].1);
        if e.Some? {
          return;
        }
        LevelsKeyed(levels, totals);
        i := i + 1;
      }
      e := None;
    }

    /** `__call__`: each level's total divided by the count, then `.item()`.
        With no levels the dictionary is empty. Float totals raise
        ZeroDivisionError at count 0 and AttributeError (`.item()` on a
        float) otherwise; tensor totals imply a positive count. */
    function Report(): (r: Result<map<real, real>>)
      requires Valid()
      reads this
      ensures |levels| == 0 ==> r == Ok(map[])
      ensures |levels| > 0 ==> (r.Ok? <==> tensor)
      ensures r.Err? ==> r.error == (if count == 0 then ZeroDivisionError else AttributeError)
      ensures r.Ok? ==> r.value.Keys == LevelSet(levels)
      ensures r.Ok? ==> forall l :: l in r.value ==> IsFraction(r.value[l], totals[l], count)
      ensures r.Ok? && Bounded(Tally(count, totals), 1) ==>
        forall l :: l in r.value ==> 0.0 <= r.value[l] <= 1.0
    {
      if |levels| == 0 then Ok(map[])
      else if !tensor then Err(if count == 0 then ZeroDivisionError else AttributeError)
      else
        Ok(Fractions(totals, count))
    }
  }

  /** q is the fraction part / whole: q times the whole is the part. */
  predicate IsFraction(q: real, part: nat, whole: nat)
  {
    q * whole as real == part as real
  }

  /** Each level's total divided by a positive count: its accuracy, a
      fraction of the count, in [0, 1] when the total is at most the count. */
  function Fractions(totals: map<real, nat>, count: nat): (r: map<real, real>)
    requires count > 0
    ensures r.Keys == totals.Keys
    ensures forall l :: l in r ==> IsFraction(r[l], totals[l], count)
    ensures Bounded(Tally(count, totals), 1) ==> forall l :: l in r ==> 0.0 <= r[l] <= 1.0
  {
    var r := map l | l in totals :: totals[l] as real / count as real;
    assert forall l :: l in r ==> IsFraction(r[l], totals[l], count) by {
      forall l | l in r
        ensures IsFraction(r[l], totals[l], count)
      {
        QuotientTimes(totals[l] as real, count as real);
      }
    }
    assert Bounded(Tally(count, totals), 1) ==> forall l :: l in r ==> 0.0 <= r[l] <= 1.0 by {
      if Bounded(Tally(count, totals), 1) {
        forall l | l in r
          ensures 0.0 <= r[l] <= 1.0
        {
          FractionBounds(totals[l], count);
        }
      }
    }
    r
  }

  /** Dividing and then multiplying by the same non-zero divisor. */
  lemma QuotientTimes(a: real, b: real)
    requires b != 0.0
    ensures (a / b) * b == a
  {
  }

  /** A count out of a larger positive count is a fraction in [0, 1]. */
  lemma FractionBounds(part: nat, whole: nat)
    requires 0 < whole && part <= whole
    ensures 0.0 <= part as real / whole as real <= 1.0
  {
  }

  /** What dividing a tensor total by a count gives, as IEEE 754 floats
      divide: the quotient, or for a zero count not-a-number (0 / 0) or an
      infinity of the total's sign. */
  datatype Mean = Finite(value: real) | NaN | Infinite(positive: bool)

  /** `total / count` on a tensor `total`. */
  function Divide(total: real, count: nat): (r: Mean)
    ensures count > 0 ==> r.Finite? && r.value * count as real == total
    ensures count == 0 ==> (r.NaN? <==> total == 0.0) && (r.Infinite? <==> total != 0.0)
    ensures r.Infinite? ==> r.positive == (total > 0.0)
  {
    if count > 0 then Finite(total / count as real)
    else if total == 0.0 then NaN
    else Infinite(total > 0.0)
  }

  /** The L1 counters: summed absolute differences, durations seen, and
      whether the total has become a tensor (it starts as the float `0.`
      and turns into one when the first pair is added). */
  datatype L1Tally = L1Tally(total: real, count: nat, tensor: bool)

  /** What the L1 counters keep from a reset on: nothing is counted until a
      pair is added, the total sums absolute values, and durations counted
      with none seen leave it at zero. */
  ghost predicate Consistent(t: L1Tally)
  {
    && t.total >= 0.0
    && (t.count > 0 ==> t.tensor)
    && (t.count == 0 ==> t.total == 0.0)
  }

  /** One pair of `L1.update`: the durations do not broadcast, or their
      absolute differences and the predicted count are added and the total
      becomes a tensor. */
  function L1Step(t: L1Tally, predicted: seq<Phone>, target: seq<Phone>): (r: Result<L1Tally>)
    ensures r.Err? <==> !Broadcastable(|Spoken(predicted)|, |Spoken(target)|)
    ensures r.Ok? ==> r.value.total >= t.total && r.value.count == t.count + |Spoken(predicted)| && r.value.tensor
    ensures r.Ok? && Consistent(t) ==> Consistent(r.value)
  {
    var p := Spoken(predicted);
    match Subtract(p, Spoken(target))
    case Err(e) => Err(e)
    case Ok(d) =>
      assert |p| == 0 ==> d == [];
      Ok(L1Tally(t.total + AbsSum(d), t.count + |p|, true))
  }

  /** `L1.update` over the zipped pairs. */
  function L1Run(t: L1Tally, pairs: seq<(seq<Phone>, seq<Phone>)>): (r: (L1Tally, Option<Error>))
    decreases |pairs|
  {
    if |pairs| == 0 then (t, None)
    else
      match L1Step(t, pairs[0].0, pairs[0].1)
      case Err(e) => (t, Some(e))
      case Ok(next) => L1Run(next, pairs[1..])
  }

  /** The total and the count never decrease; over matched pairs no error
      is raised. */
  lemma {:induction false} L1RunGrows(t: L1Tally, pairs: seq<(seq<Phone>, seq<Phone>)>)
    ensures L1Run(t, pairs).0.total >= t.total && L1Run(t, pairs).0.count >= t.count
    ensures Matched(pairs) ==> L1Run(t, pairs).1 == None
    ensures Consistent(t) ==> Consistent(L1Run(t, pairs).0)
    decreases |pairs|
  {
    if |pairs| > 0 {
      match L1Step(t, pairs[0].0, pairs[0].1)
      case Err(e) =>
      case Ok(next) =>
        L1RunGrows(next, pairs[1..]);
        assert Matched(pairs) ==> Matched(pairs[1..]) by {
          assert forall k :: 0 <= k < |pairs| - 1 ==> pairs[1..][k] == pairs[k + 1];
        }
    }
  }

  /** Mean absolute duration error. */
  class L1 {
    var total: real
    var count: nat
    /** Whether `total` has become a tensor. */
    var tensor: bool

    ghost predicate Valid()
      reads this
    {
      Consistent(L1Tally(total, count, tensor))
    }

    constructor()
      ensures total == 0.0 && count == 0 && !tensor && Valid()
    {
      total := 0.0;
      count := 0;
      tensor := false;
    }

    method Reset()
      modifies this
      ensures total == 0.0 && count == 0 && !tensor && Valid()
    {
      total := 0.0;
      count := 0;
      tensor := false;
    }

    method Update(alignments: seq<seq<Phone>>, targets: seq<seq<Phone>>) returns (e: Option<Error>)
      requires Valid()
      modifies this
      ensures Valid()
      ensures (L1Tally(total, count, tensor), e) == L1Run(L1Tally(old(total), old(count), old(tensor)), Zip(alignments, targets))
    {
      var pairs := Zip(alignments, targets);
      var i := 0;
      while i < |pairs|
        invariant 0 <= i <= |pairs| && Valid()
        invariant L1Run(L1Tally(old(total), old(count), old(tensor)), pairs) == L1Run(L1Tally(total, count, tensor), pairs[i..])
      {
        assert pairs[i..][0] == pairs[i] && pairs[i..][1..] == pairs[i + 1..];
        var step := L1Step(L1Tally(total, count, tensor), pairs[i].0, pairs[i].1);
        if step.Err? {
          return Some(step.error);
        }
        total, count, tensor := step.value.total, step.value.count, step.value.tensor;
        i := i + 1;
      }
      e := None;
    }

    /** `__call__`: before any pair is added the float total cannot be
        divided by a zero count; afterwards the tensor quotient, which is
        a non-negative number once a duration is counted and not-a-number
        while none is. */
    function Report(): (r: Result<Mean>)
      reads this
      ensures r.Err? <==> !tensor
      ensures r.Err? ==> r.error == (if count == 0 then ZeroDivisionError else AttributeError)
      ensures r.Ok? ==> r.value == Divide(total, count)
      ensures Valid() ==> (r.Err? <==> count == 0 && !tensor)
      ensures Valid() && r.Ok? && count == 0 ==> r.value.NaN?
      ensures Valid() && count > 0 ==> r.Ok? && r.value.Finite? && r.value.value >= 0.0
    {
      if !tensor then Err(if count == 0 then ZeroDivisionError else AttributeError)
      else Ok(Divide(total, count))
    }
  }

  /** Mean training loss; the loss value of a batch is given. */
  class Loss {
    var total: real
    var count: nat
    /** Whether `total` has become a tensor: the first loss added makes it one. */
    var tensor: bool

    ghost predicate Valid()
      reads this
    {
      count > 0 ==> tensor
    }

    constructor()
      ensures total == 0.0 && count == 0 && !tensor && Valid()
    {
      total := 0.0;
      count := 0;
      tensor := false;
    }

    method Reset()
      modifies this
      ensures total == 0.0 && count == 0 && !tensor && Valid()
    {
      total := 0.0;
      count := 0;
      tensor := false;
    }

    /** Adds the batch loss and the batch size `logits.shape[0]`. */
    method Update(loss: real, batchSize: nat)
      modifies this
      ensures total == old(total) + loss && count == old(count) + batchSize && tensor
      ensures Valid()
    {
      total := total + loss;
      count := count + batchSize;
      tensor := true;
    }

    /** `__call__`: before any loss is added the float total cannot be
        divided by a zero count; afterwards the tensor quotient, the mean
        once a batch item is counted. */
    function Report(): (r: Result<Mean>)
      reads this
      ensures r.Err? <==> !tensor
      ensures r.Err? ==> r.error == (if count == 0 then ZeroDivisionError else AttributeError)
      ensures r.Ok? ==> r.value == Divide(total, count)
      ensures Valid() ==> (r.Err? <==> count == 0 && !tensor)
      ensures Valid() && count > 0 ==> r.Ok? && r.value.Finite? && r.value.value * count as real == total
    {
      if !tensor then Err(if count == 0 then ZeroDivisionError else AttributeError)
      else Ok(Divide(total, count))
    }
  }

  /** The keys of the reported dictionary: `'loss'`, `'l1'` and
      `'accuracy-<level>'`. */
  datatype Key = LossKey | L1Key | AccuracyKey(level: real)

  /** The aggregate of the three metrics. */
  class Metrics {
    const accuracy: Accuracy
    const l1: L1
    const loss: Loss

    ghost predicate Valid()
      reads this, accuracy, l1, loss
    {
      accuracy.Valid() && l1.Valid() && loss.Valid()
    }

    constructor()
      ensures fresh(accuracy) && fresh(l1) && fresh(loss) && Valid()
      ensures accuracy.levels == DefaultLevels && accuracy.count == 0 && accuracy.totals == ZeroTotals(DefaultLevels) && !accuracy.tensor
      ensures l1.total == 0.0 && l1.count == 0 && !l1.tensor && loss.total == 0.0 && loss.count == 0 && !loss.tensor
    {
      accuracy := new Accuracy(DefaultLevels);
      l1 := new L1();
      loss := new Loss();
    }

    /** Always updates the loss; updates accuracy and L1 only when both
        alignments and targets are given, and L1 only if accuracy did not
        raise. */
    method Update(lossValue: real, batchSize: nat, alignments: Option<seq<seq<Phone>>>, targets: Option<seq<seq<Phone>>>)
      returns (e: Option<Error>)
      requires Valid()
      modifies accuracy, l1, loss
      ensures Valid()
      ensures loss.total == old(loss.total) + lossValue && loss.count == old(loss.count) + batchSize && loss.tensor
      ensures !(alignments.Some? && targets.Some?) ==>
        e == None && unchanged(accuracy) && unchanged(l1)
      ensures alignments.Some? && targets.Some? ==>
        var pairs := Zip(alignments.value, targets.value);
        var a := AccuracyRun(accuracy.levels, Tally(old(accuracy.count), old(accuracy.totals)), pairs, false);
        && Tally(accuracy.count, accuracy.totals) == a.0
        && accuracy.tensor == (old(accuracy.tensor) || TensorRun(accuracy.levels, pairs))
        && (a.1.Some? ==> e == a.1 && unchanged(l1))
        && (a.1.None? ==> (L1Tally(l1.total, l1.count, l1.tensor), e) == L1Run(L1Tally(old(l1.total), old(l1.count), old(l1.tensor)), pairs))
    {
      loss.Update(lossValue, batchSize);
      e := None;
      if alignments.Some? && targets.Some? {
        e := accuracy.Update(alignments.value, targets.value);
        if e.None? {
          e := l1.Update(alignments.value, targets.value);
        }
      }
    }

    method Reset()
      requires Valid()
      modifies accuracy, l1, loss
      ensures Valid() && accuracy.count == 0 && accuracy.totals == ZeroTotals(accuracy.levels) && !accuracy.tensor
      ensures l1.total == 0.0 && l1.count == 0 && !l1.tensor && loss.total == 0.0 && loss.count == 0 && !loss.tensor
    {
      accuracy.Reset();
      l1.Reset();
      loss.Reset();
    }

    /** `__call__`: the loss always (so it raises until a loss is added),
        the accuracy keys exactly when accuracy has counted something (so
        float accuracy totals with a positive count raise), and `'l1'`
        exactly when L1 has, each with its accumulator's value. */
    function Report(): (r: Result<map<Key, Mean>>)
      requires Valid()
      reads this, accuracy, l1, loss
      ensures r.Ok? <==> loss.tensor && (accuracy.count > 0 && |accuracy.levels| > 0 ==> accuracy.tensor)
      ensures loss.count > 0 && (|accuracy.levels| > 0 ==> accuracy.tensor) ==> r.Ok?
      ensures r.Err? ==> r.error == (if loss.tensor then AttributeError else ZeroDivisionError)
      ensures r.Ok? ==> LossKey in r.value && r.value[LossKey] == loss.Report().value
      ensures r.Ok? ==> (L1Key in r.value <==> l1.count > 0)
      ensures r.Ok? && l1.count > 0 ==> r.value[L1Key] == l1.Report().value && r.value[L1Key].Finite?
      ensures r.Ok? ==> forall l :: AccuracyKey(l) in r.value <==> accuracy.count > 0 && l in accuracy.levels
      ensures r.Ok? && accuracy.count > 0 ==>
        forall l :: l in accuracy.levels ==> r.value[AccuracyKey(l)] == Finite(accuracy.Report().value[l])
    {
      var lossValue :- loss.Report();
      var results := map[LossKey := lossValue];
      var withAccuracy :- if accuracy.count > 0 then
          var a :- accuracy.Report();
          Ok(results + map k | k in (set l | l in a :: AccuracyKey(l)) :: Finite(a[k.level]))
        else Ok(results);
      var withL1 := if l1.count > 0 then withAccuracy[L1Key := l1.Report().value] else withAccuracy;
      Ok(withL1)
    }
  }
}
