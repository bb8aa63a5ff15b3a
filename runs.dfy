/** Run-length encoding of a sequence, as `torch.unique_consecutive(...,
    return_counts=True)` and `itertools.groupby` compute it: each maximal
    block of equal neighbours becomes one (value, count) pair. */
module Runs {

  datatype Run<T> = Run(value: T, count: nat)

  function Runs<T(==)>(s: seq<T>): (rs: seq<Run<T>>)
    ensures |rs| <= |s|
    ensures |s| == 0 <==> |rs| == 0
    ensures |s| > 0 ==> rs[0].value == s[0]
  {
    if |s| == 0 then []
    else
      var rest := Runs(s[1..]);
      if |rest| > 0 && rest[0].value == s[0] then
        [Run(s[0], rest[0].count + 1)] + rest[1..]
      else
        [Run(s[0], 1)] + rest
  }

  /** The inverse of Runs: each pair repeated count times. */
  function Expand<T>(rs: seq<Run<T>>): (s: seq<T>)
  {
    if |rs| == 0 then [] else Repeat(rs[0].value, rs[0].count) + Expand(rs[1..])
  }

  function Repeat<T>(x: T, n: nat): (s: seq<T>)
    ensures |s| == n && forall k :: 0 <= k < n ==> s[k] == x
  {
    if n == 0 then [] else [x] + Repeat(x, n - 1)
  }

  function Values<T>(rs: seq<Run<T>>): (vs: seq<T>)
    ensures |vs| == |rs| && forall k :: 0 <= k < |rs| ==> vs[k] == rs[k].value
  {
    seq(|rs|, k requires 0 <= k < |rs| => rs[k].value)
  }

  function Counts<T>(rs: seq<Run<T>>): (cs: seq<nat>)
    ensures |cs| == |rs| && forall k :: 0 <= k < |rs| ==> cs[k] == rs[k].count
  {
    seq(|rs|, k requires 0 <= k < |rs| => rs[k].count)
  }

  /** A well-formed encoding: counts at least 1, no two neighbours equal. */
  ghost predicate Canonical<T>(rs: seq<Run<T>>)
  {
    && (forall k :: 0 <= k < |rs| ==> rs[k].count >= 1)
    && (forall k :: 0 <= k < |rs| - 1 ==> rs[k].value != rs[k + 1].value)
  }

  function TotalCount<T>(rs: seq<Run<T>>): nat
  {
    if |rs| == 0 then 0 else rs[0].count + TotalCount(rs[1..])
  }

  lemma {:induction false} RunsCanonical<T>(s: seq<T>)
    ensures Canonical(Runs(s))
  {
    if |s| > 0 {
      RunsCanonical(s[1..]);
      var rest := Runs(s[1..]);
      if |rest| > 0 && rest[0].value == s[0] {
        var rs := [Run(s[0], rest[0].count + 1)] + rest[1..];
        assert forall k :: 1 <= k < |rs| ==> rs[k] == rest[k];
      } else {
        var rs := [Run(s[0], 1)] + rest;
        assert forall k :: 1 <= k < |rs| ==> rs[k] == rest[k - 1];
      }
    }
  }

  lemma {:induction false} ExpandRuns<T>(s: seq<T>)
    ensures Expand(Runs(s)) == s
  {
    if |s| > 0 {
      ExpandRuns(s[1..]);
      var rest := Runs(s[1..]);
      if |rest| > 0 && rest[0].value == s[0] {
        ExpandMergeHead(s[0], rest);
      } else {
        assert Expand([Run(s[0], 1)] + rest) == [s[0]] + Expand(rest);
      }
      assert [s[0]] + s[1..] == s;
    }
  }

  /** Adding one to the first count prepends one copy of its value. */
  lemma {:induction false} ExpandMergeHead<T>(x: T, rest: seq<Run<T>>)
    requires |rest| > 0 && rest[0].value == x
    ensures Expand([Run(x, rest[0].count + 1)] + rest[1..]) == [x] + Expand(rest)
  {
    var c := rest[0].count;
    var rs := [Run(x, c + 1)] + rest[1..];
    assert rs[0] == Run(x, c + 1) && rs[1..] == rest[1..];
    calc {
      Expand(rs);
      Repeat(x, c + 1) + Expand(rest[1..]);
      ([x] + Repeat(x, c)) + Expand(rest[1..]);
      [x] + (Repeat(x, c) + Expand(rest[1..]));
      [x] + Expand(rest);
    }
  }

  lemma {:induction false} ExpandLength<T>(rs: seq<Run<T>>)
    ensures |Expand(rs)| == TotalCount(rs)
  {
    if |rs| > 0 {
      ExpandLength(rs[1..]);
    }
  }

  /** The counts of the encoding add up to the input length. */
  lemma RunsTotal<T>(s: seq<T>)
    ensures TotalCount(Runs(s)) == |s|
  {
    ExpandRuns(s);
    ExpandLength(Runs(s));
  }

  /** Runs is the only canonical encoding: decoding then re-encoding a
      canonical encoding gives it back. */
  lemma {:induction false} RunsExpand<T>(rs: seq<Run<T>>)
    requires Canonical(rs)
    ensures Runs(Expand(rs)) == rs
  {
    if |rs| > 0 {
      var tail := rs[1..];
      assert Canonical(tail) by {
        assert forall k :: 0 <= k < |tail| ==> tail[k] == rs[k + 1];
      }
      RunsExpand(tail);
      RunsRepeat(rs[0].value, rs[0].count, tail);
    }
  }

  /** Prepending n >= 1 copies of x to a decoding whose first value differs
      from x adds exactly one run. */
  lemma {:induction false} RunsRepeat<T>(x: T, n: nat, tail: seq<Run<T>>)
    requires n >= 1
    requires Runs(Expand(tail)) == tail
    requires |tail| > 0 ==> tail[0].value != x
    ensures Runs(Repeat(x, n) + Expand(tail)) == [Run(x, n)] + tail
  {
    var s := Repeat(x, n) + Expand(tail);
    assert s[1..] == Repeat(x, n - 1) + Expand(tail);
    if n == 1 {
      assert s[1..] == Expand(tail);
    } else {
      RunsRepeat(x, n - 1, tail);
    }
  }

  lemma {:induction false} TotalCountAt<T>(rs: seq<Run<T>>, k: nat)
    requires k <= |rs|
    ensures TotalCount(rs) == TotalCount(rs[..k]) + TotalCount(rs[k..])
  {
    if k > 0 {
      assert rs[1..][..k - 1] == rs[1..k];
      assert rs[1..][k - 1..] == rs[k..];
      TotalCountAt(rs[1..], k - 1);
      assert rs[..k][1..] == rs[1..k];
    } else {
      assert rs[k..] == rs;
    }
  }

  lemma {:induction false} TotalCountCounts<T>(rs: seq<Run<T>>)
    ensures TotalCount(rs) == SumCounts(Counts(rs))
  {
    if |rs| > 0 {
      TotalCountCounts(rs[1..]);
      assert Counts(rs) == [rs[0].count] + Counts(rs[1..]);
    }
  }

  function SumCounts(cs: seq<nat>): nat
  {
    if |cs| == 0 then 0 else cs[0] + SumCounts(cs[1..])
  }
}
