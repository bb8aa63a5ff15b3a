/** Log-domain scores as extended reals. The decoder only ever adds finite
    log-probabilities and −∞ (log 0), so +∞ and NaN never arise and are not
    represented. */
module Scores {

  datatype Score = NegInf | Fin(v: real)

  /** Addition in the log domain; −∞ absorbs. */
  function Add(a: Score, b: Score): (r: Score)
    ensures r.Fin? <==> a.Fin? && b.Fin?
    ensures r.Fin? ==> r.v == a.v + b.v
  {
    match (a, b)
    case (Fin(x), Fin(y)) => Fin(x + y)
    case _ => NegInf
  }

  predicate Le(a: Score, b: Score)
  {
    match (a, b)
    case (NegInf, _) => true
    case (Fin(_), NegInf) => false
    case (Fin(x), Fin(y)) => x <= y
  }

  predicate Lt(a: Score, b: Score)
  {
    !Le(b, a)
  }

  lemma LeTotal(a: Score, b: Score)
    ensures Le(a, b) || Le(b, a)
  {
  }

  /** An index of s holding a maximum, the lowest such: this is what
      `torch.argmax` returns, so a row that is −∞ everywhere gives 0. */
  ghost predicate IsArgMax(s: seq<Score>, k: int)
  {
    && 0 <= k < |s|
    && (forall i :: 0 <= i < |s| ==> Le(s[i], s[k]))
    && (forall i :: 0 <= i < k ==> Lt(s[i], s[k]))
  }

  function ArgMax(s: seq<Score>): (k: nat)
    requires |s| > 0
    ensures IsArgMax(s, k)
  {
    if |s| == 1 then 0
    else
      var k := ArgMax(s[..|s| - 1]);
      assert forall i :: 0 <= i < |s| - 1 ==> s[i] == s[..|s| - 1][i];
      if Lt(s[k], s[|s| - 1]) then |s| - 1 else k
  }

  /** The lowest maximising index is unique. */
  lemma ArgMaxUnique(s: seq<Score>, a: int, b: int)
    requires IsArgMax(s, a) && IsArgMax(s, b)
    ensures a == b
  {
    LtAntisymmetric(s[a], s[b]);
    LtAntisymmetric(s[b], s[a]);
  }

  lemma LtAntisymmetric(x: Score, y: Score)
    ensures !(Lt(x, y) && Le(y, x))
  {
  }

  /** A finite entry forces the maximum to be finite. */
  lemma ArgMaxFinite(s: seq<Score>, i: int)
    requires |s| > 0 && 0 <= i < |s| && s[i].Fin?
    ensures s[ArgMax(s)].Fin? && s[i].v <= s[ArgMax(s)].v
  {
    var k := ArgMax(s);
    assert Le(s[i], s[k]);
  }

  lemma LeTransitive(a: Score, b: Score, c: Score)
    requires Le(a, b) && Le(b, c)
    ensures Le(a, c)
  {
  }

  /** Adding the same score on either side preserves the order. */
  lemma AddMonotone(a: Score, b: Score, c: Score)
    requires Le(a, b)
    ensures Le(Add(a, c), Add(b, c)) && Le(Add(c, a), Add(c, b))
  {
  }
}
