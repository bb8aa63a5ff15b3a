/** Shared vocabulary of the model: the exceptions the Python code raises,
    a Result/Option pair in place of those exceptions, alignments as
    sequences of (symbol, duration) and sums over sequences. */
module Common {

  /** The Python exception classes the modelled code can raise. */
  datatype Error =
    | KeyError
    | IndexError
    | TypeError
    | ValueError
    | ZeroDivisionError
    | AttributeError
    | RuntimeError

  datatype Result<+T> = Ok(value: T) | Err(error: Error) {
    predicate IsFailure() { Err? }

    function PropagateFailure<U>(): Result<U>
      requires Err?
    {
      Err(error)
    }

    function Extract(): T
      requires Ok?
    {
      value
    }
  }

  datatype Option<+T> = None | Some(value: T)

  /** The silence token of pypar, `pypar.SILENCE`. */
  const Silent: string := "<silent>"

  /** One phoneme of an alignment: its symbol and its duration in seconds. */
  datatype Phone = Phone(symbol: string, duration: real)

  /** One phoneme of a timed alignment: its symbol, start and end in seconds. */
  datatype Segment = Segment(symbol: string, start: real, end: real)

  function Sum(s: seq<real>): real
  {
    if |s| == 0 then 0.0 else Sum(s[..|s| - 1]) + s[|s| - 1]
  }

  function SumNat(s: seq<nat>): nat
  {
    if |s| == 0 then 0 else SumNat(s[..|s| - 1]) + s[|s| - 1]
  }

  lemma {:induction false} SumAppend(a: seq<real>, b: seq<real>)
    ensures Sum(a + b) == Sum(a) + Sum(b)
  {
    if |b| == 0 {
      assert a + b == a;
    } else {
      assert (a + b)[..|a + b| - 1] == a + b[..|b| - 1];
      SumAppend(a, b[..|b| - 1]);
    }
  }

  lemma {:induction false} SumNatAppend(a: seq<nat>, b: seq<nat>)
    ensures SumNat(a + b) == SumNat(a) + SumNat(b)
  {
    if |b| == 0 {
      assert a + b == a;
    } else {
      assert (a + b)[..|a + b| - 1] == a + b[..|b| - 1];
      SumNatAppend(a, b[..|b| - 1]);
    }
  }

  /** Multiplying every element by c multiplies the sum by c. */
  lemma {:induction false} SumScale(s: seq<real>, c: real, r: seq<real>)
    requires |r| == |s|
    requires forall k :: 0 <= k < |s| ==> r[k] == c * s[k]
    ensures Sum(r) == c * Sum(s)
  {
    if |s| > 0 {
      SumScale(s[..|s| - 1], c, r[..|r| - 1]);
    }
  }

  function Durations(phones: seq<Phone>): (d: seq<real>)
    ensures |d| == |phones|
    ensures forall k :: 0 <= k < |phones| ==> d[k] == phones[k].duration
  {
    seq(|phones|, k requires 0 <= k < |phones| => phones[k].duration)
  }

  function Symbols(phones: seq<Phone>): (s: seq<string>)
    ensures |s| == |phones|
    ensures forall k :: 0 <= k < |phones| ==> s[k] == phones[k].symbol
  {
    seq(|phones|, k requires 0 <= k < |phones| => phones[k].symbol)
  }

  /** `math.ceil(a / b)` for non-negative integers in exact arithmetic. */
  function CeilDiv(a: nat, b: nat): (r: nat)
    requires b > 0
    ensures r * b >= a && (r == 0 || (r - 1) * b < a)
  {
    (a + b - 1) / b
  }

  /** `r` lists each of the positions 0..n-1 exactly once. */
  ghost predicate IsPermutation(r: seq<nat>, n: nat)
  {
    |r| == n && multiset(r) == multiset(Range(n))
  }

  function Range(n: nat): (r: seq<nat>)
    ensures |r| == n && forall k :: 0 <= k < n ==> r[k] == k
  {
    seq(n, k requires 0 <= k < n => k)
  }

  /** A permutation of the positions holds each of them exactly once. */
  lemma PermutationElements(r: seq<nat>, n: nat)
    requires IsPermutation(r, n)
    ensures forall k :: 0 <= k < n ==> r[k] < n
    ensures forall a, b :: 0 <= a < b < n ==> r[a] != r[b]
  {
    forall k | 0 <= k < n ensures r[k] < n {
      assert r[k] in multiset(r);
      assert r[k] in multiset(Range(n));
      assert r[k] in Range(n);
    }
    forall a, b | 0 <= a < b < n ensures r[a] != r[b] {
      if r[a] == r[b] {
        var x := r[a];
        assert multiset(Range(n))[x] <= 1 by { RangeMultiplicity(n, x); }
        MultiplicityTwo(r, a, b);
        assert false;
      }
    }
  }

  lemma {:induction false} RangeMultiplicity(n: nat, x: nat)
    ensures multiset(Range(n))[x] <= 1
  {
    if n > 0 {
      assert Range(n) == Range(n - 1) + [n - 1];
      RangeMultiplicity(n - 1, x);
      if x == n - 1 {
        assert x !in Range(n - 1);
      }
    }
  }

  lemma MultiplicityTwo<T>(r: seq<T>, a: nat, b: nat)
    requires a < b < |r| && r[a] == r[b]
    ensures multiset(r)[r[a]] >= 2
  {
    var x := r[a];
    assert r == r[..a] + [x] + r[a + 1..b] + [x] + r[b + 1..];
    assert multiset(r) == multiset(r[..a]) + multiset{x} + multiset(r[a + 1..b]) + multiset{x} + multiset(r[b + 1..]);
  }

  /** Every element of s is below n. */
  predicate Below(s: seq<nat>, n: nat)
  {
    forall k :: 0 <= k < |s| ==> s[k] < n
  }

  lemma PermutationBelow(r: seq<nat>, n: nat)
    requires IsPermutation(r, n)
    ensures Below(r, n)
  {
    PermutationElements(r, n);
  }

  /** `s[perm]`: the elements of s at the positions perm lists. */
  function Permute<T>(s: seq<T>, perm: seq<nat>): (r: seq<T>)
    requires Below(perm, |s|)
    ensures |r| == |perm| && forall j :: 0 <= j < |perm| ==> r[j] == s[perm[j]]
  {
    seq(|perm|, j requires 0 <= j < |perm| => s[perm[j]])
  }

  /** Reordering s by a permutation keeps every element and its
      multiplicity. */
  lemma PermuteMultiset<T>(s: seq<T>, perm: seq<nat>)
    requires IsPermutation(perm, |s|)
    ensures Below(perm, |s|) && multiset(Permute(s, perm)) == multiset(s)
  {
    PermutationBelow(perm, |s|);
    PermuteSameMultiset(s, perm, Range(|s|));
    assert Permute(s, Range(|s|)) == s;
  }

  /** Position lists with equal multisets pick out equal multisets. */
  lemma {:induction false} PermuteSameMultiset<T>(s: seq<T>, p: seq<nat>, q: seq<nat>)
    requires Below(p, |s|) && Below(q, |s|) && multiset(p) == multiset(q)
    ensures multiset(Permute(s, p)) == multiset(Permute(s, q))
    decreases |p|
  {
    if |p| > 0 {
      var x := p[|p| - 1];
      var p' := p[..|p| - 1];
      assert p == p' + [x];
      assert x in multiset(q);
      var i :| 0 <= i < |q| && q[i] == x;
      var q' := q[..i] + q[i + 1..];
      assert multiset(p') == multiset(q') by {
        RemoveAt(q, i);
        MultisetCancel(multiset(p'), multiset(q'), x);
      }
      PickOut(s, q, i);
      calc {
        multiset(Permute(s, p));
      == { PermuteAppend(s, p', [x]); }
        multiset(Permute(s, p') + Permute(s, [x]));
      == { assert Permute(s, [x]) == [s[x]]; }
        multiset(Permute(s, p')) + multiset{s[x]};
      == { PermuteSameMultiset(s, p', q'); }
        multiset(Permute(s, q')) + multiset{s[x]};
      }
    }
  }

  /** Picking position q[i] last only moves its element. */
  lemma {:induction false} PickOut<T>(s: seq<T>, q: seq<nat>, i: nat)
    requires Below(q, |s|) && i < |q|
    ensures Below(q[..i] + q[i + 1..], |s|)
    ensures multiset(Permute(s, q)) == multiset(Permute(s, q[..i] + q[i + 1..])) + multiset{s[q[i]]}
  {
    var a, b := q[..i], q[i + 1..];
    assert q == a + [q[i]] + b;
    PermuteAppend(s, a, b);
    PermuteAppend(s, a + [q[i]], b);
    PermuteAppend(s, a, [q[i]]);
    assert Permute(s, q) == Permute(s, a) + [s[q[i]]] + Permute(s, b);
  }

  lemma {:induction false} RemoveAt<T>(q: seq<T>, i: nat)
    requires i < |q|
    ensures multiset(q) == multiset(q[..i] + q[i + 1..]) + multiset{q[i]}
  {
    assert q == q[..i] + [q[i]] + q[i + 1..];
  }

  /** A prefix one element longer. */
  lemma TakeOneMore<T>(s: seq<T>, i: nat)
    requires i < |s|
    ensures s[..i + 1] == s[..i] + [s[i]]
  {
  }

  /** Moving the last element of a prefix onto what follows it. */
  lemma ShiftLast<T>(s: seq<T>, j: nat, t: seq<T>)
    requires j < |s|
    ensures s[..j + 1] + t == s[..j] + ([s[j]] + t)
  {
    TakeOneMore(s, j);
  }

  /** A sequence is the part before position i, its element there, and the rest. */
  lemma SplitAt<T>(s: seq<T>, i: nat)
    requires i < |s|
    ensures s == s[..i] + ([s[i]] + s[i + 1..])
  {
    assert s == s[..i] + s[i..];
    assert s[i..] == [s[i]] + s[i + 1..];
  }

  lemma {:induction false} MultisetCancel<T>(a: multiset<T>, b: multiset<T>, x: T)
    requires a + multiset{x} == b + multiset{x}
    ensures a == b
  {
    assert forall y :: a[y] == (a + multiset{x})[y] - (if y == x then 1 else 0);
    assert forall y :: b[y] == (b + multiset{x})[y] - (if y == x then 1 else 0);
  }

  lemma {:induction false} PermuteAppend<T>(s: seq<T>, a: seq<nat>, b: seq<nat>)
    requires Below(a, |s|) && Below(b, |s|)
    ensures Below(a + b, |s|) && Permute(s, a + b) == Permute(s, a) + Permute(s, b)
  {
  }
}
