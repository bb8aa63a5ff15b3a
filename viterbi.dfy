/** The monotonic Viterbi decoder of pyfoal/viterbi.py.

    Matrices are dense `array2`s filled in place, as the tensors of the
    source are. A transition matrix is indexed [destination j][source i]:
    row j lists the phonemes a frame may come from to land on phoneme j.
    Scores are extended reals (Scores.Score); the natural logarithm the
    source applies to the normalised transition weights is the parameter
    `ln`, about which nothing is assumed. */
module Viterbi {
  import opened Common
  import opened Scores
  import Runs

  /** The decoder's configuration flags (`ALLOW_SKIP_SPACE`,
      `ALLOW_LOUD_SILENCE`, `SILENCE_THRESHOLD`). */
  datatype Config = Config(allowSkipSpace: bool, allowLoudSilence: bool, silenceThreshold: real)

  /** The decoded alignment: phoneme positions and their frame counts, the
      two tensors `torch.unique_consecutive` returns. */
  datatype Decoded = Decoded(indices: seq<int>, counts: seq<nat>)

  // ---------------------------------------------------------------------
  // Matrices
  // ---------------------------------------------------------------------

  function Row<T>(a: array2<T>, r: int): (row: seq<T>)
    reads a
    requires 0 <= r < a.Length0
    ensures |row| == a.Length1
    ensures forall c :: 0 <= c < a.Length1 ==> row[c] == a[r, c]
  {
    seq(a.Length1, c requires 0 <= c < a.Length1 reads a => a[r, c])
  }

  function Matrix<T>(a: array2<T>): (m: seq<seq<T>>)
    reads a
    ensures |m| == a.Length0
    ensures forall r :: 0 <= r < a.Length0 ==> m[r] == Row(a, r)
  {
    seq(a.Length0, r requires 0 <= r < a.Length0 reads a => Row(a, r))
  }

  ghost predicate Shape<T>(m: seq<seq<T>>, rows: nat, cols: nat)
  {
    |m| == rows && forall r :: 0 <= r < rows ==> |m[r]| == cols
  }

  // ---------------------------------------------------------------------
  // Transition structure
  // ---------------------------------------------------------------------

  /** `space[p]`: phoneme p of the utterance is the silence token. */
  function Space(phonemes: seq<int>, silence: int): (space: seq<bool>)
    ensures |space| == |phonemes|
    ensures forall p :: 0 <= p < |phonemes| ==> space[p] == (phonemes[p] == silence)
  {
    seq(|phonemes|, p requires 0 <= p < |phonemes| => phonemes[p] == silence)
  }

  /** A silence strictly inside the utterance (not the first or last phoneme). */
  predicate InteriorSilence(space: seq<bool>, p: int)
  {
    1 <= p <= |space| - 2 && space[p]
  }

  /** Phoneme j may be entered from j-2, skipping the interior silence j-1. */
  predicate SkipEdge(space: seq<bool>, allowSkip: bool, j: int)
  {
    allowSkip && InteriorSilence(space, j - 1)
  }

  /** Entry [j][i] of the transition matrix is an allowed edge from source
      i to destination j: stay, advance by one, or skip one interior silence. */
  predicate Allowed(space: seq<bool>, allowSkip: bool, j: int, i: int)
  {
    && 0 <= j < |space| && 0 <= i < |space|
    && (i == j || i == j - 1 || (SkipEdge(space, allowSkip, j) && i == j - 2))
  }

  /** The number of allowed incoming edges of phoneme j (the row's sum). */
  function InDegree(space: seq<bool>, allowSkip: bool, j: int): nat
  {
    1 + (if j >= 1 then 1 else 0) + (if SkipEdge(space, allowSkip, j) then 1 else 0)
  }

  /** The un-normalised 0/1 matrix before `transition /= transition.sum(...)`. */
  function Adjacency(space: seq<bool>, allowSkip: bool, j: int, i: int): real
  {
    if Allowed(space, allowSkip, j, i) then 1.0 else 0.0
  }

  /** The elementwise `torch.log`: log 0 is −∞. */
  function Log(x: real, ln: real -> real): Score
  {
    if x == 0.0 then NegInf else Fin(ln(x))
  }

  /** The log transition matrix decode ends up with: log(1/k) on the k
      allowed entries of each row, −∞ elsewhere. */
  function TransitionMatrix(space: seq<bool>, allowSkip: bool, ln: real -> real): (t: seq<seq<Score>>)
    ensures Shape(t, |space|, |space|)
    ensures forall j, i :: 0 <= j < |space| && 0 <= i < |space| ==>
      (t[j][i].Fin? <==> Allowed(space, allowSkip, j, i))
  {
    var n := |space|;
    seq(n, j requires 0 <= j < n =>
      seq(n, i requires 0 <= i < n =>
        if Allowed(space, allowSkip, j, i) then Fin(ln(1.0 / InDegree(space, allowSkip, j) as real))
        else NegInf))
  }

  /** The initial vector: log 1 at phoneme 0, −∞ everywhere else. */
  function Initial(n: nat): (init: seq<Score>)
    ensures |init| == n
    ensures forall j :: 0 <= j < n ==> init[j] == if j == 0 then Fin(0.0) else NegInf
  {
    seq(n, j requires 0 <= j < n => if j == 0 then Fin(0.0) else NegInf)
  }

  function RowSum(t: array2<real>, j: int, n: int): real
    reads t
    requires 0 <= j < t.Length0 && 0 <= n <= t.Length1
  {
    if n == 0 then 0.0 else RowSum(t, j, n - 1) + t[j, n - 1]
  }

  /** The number of allowed sources i < n of destination j. */
  function AllowedBelow(space: seq<bool>, allowSkip: bool, j: int, n: nat): nat
  {
    if n == 0 then 0
    else AllowedBelow(space, allowSkip, j, n - 1) + (if Allowed(space, allowSkip, j, n - 1) then 1 else 0)
  }

  lemma {:induction false} AllowedBelowClosed(space: seq<bool>, allowSkip: bool, j: int, n: nat)
    requires 0 <= j < |space| && n <= |space|
    ensures AllowedBelow(space, allowSkip, j, n)
         == (if j < n then 1 else 0)
          + (if j >= 1 && j - 1 < n then 1 else 0)
          + (if SkipEdge(space, allowSkip, j) && j - 2 < n then 1 else 0)
  {
    if n > 0 {
      AllowedBelowClosed(space, allowSkip, j, n - 1);
    }
  }

  /** Every row of the 0/1 matrix holds its diagonal, so its sum is its
      in-degree: 1, 2 or 3 and never 0; normalising therefore never divides
      by zero. */
  lemma AdjacencyRowSum(t: array2<real>, space: seq<bool>, allowSkip: bool, j: int)
    requires t.Length0 == t.Length1 == |space|
    requires forall r, c :: 0 <= r < |space| && 0 <= c < |space| ==> t[r, c] == Adjacency(space, allowSkip, r, c)
    requires 0 <= j < |space|
    ensures RowSum(t, j, |space|) == InDegree(space, allowSkip, j) as real
    ensures 1 <= InDegree(space, allowSkip, j) <= 3
  {
    RowSumCounts(t, space, allowSkip, j, |space|);
    AllowedBelowClosed(space, allowSkip, j, |space|);
  }

  lemma {:induction false} RowSumCounts(t: array2<real>, space: seq<bool>, allowSkip: bool, j: int, n: nat)
    requires t.Length0 == t.Length1 == |space|
    requires forall r, c :: 0 <= r < |space| && 0 <= c < |space| ==> t[r, c] == Adjacency(space, allowSkip, r, c)
    requires 0 <= j < |space| && n <= |space|
    ensures RowSum(t, j, n) == AllowedBelow(space, allowSkip, j, n) as real
  {
    if n > 0 {
      RowSumCounts(t, space, allowSkip, j, n - 1);
    }
  }

  // ---------------------------------------------------------------------
  // Building the transition matrix (viterbi.py:27-45, 65-66)
  // ---------------------------------------------------------------------

  /** `torch.zeros`, `fill_diagonal_(1.)`, the sub-diagonal and, when
      skipping is allowed, the entries [s+1][s-1] of every interior silence s. */
  method BuildAdjacency(space: seq<bool>, allowSkip: bool) returns (t: array2<real>)
    ensures fresh(t) && t.Length0 == |space| && t.Length1 == |space|
    ensures forall j, i :: 0 <= j < |space| && 0 <= i < |space| ==> t[j, i] == Adjacency(space, allowSkip, j, i)
  {
    var n := |space|;
    t := new real[n, n]((_, _) => 0.0);
    // Self-loops
    var k := 0;
    while k < n
      invariant 0 <= k <= n
      invariant forall j, i :: 0 <= j < n && 0 <= i < n ==> t[j, i] == if i == j && j < k then 1.0 else 0.0
    {
      t[k, k] := 1.0;
      k := k + 1;
    }
    // Advance by one: transition[arange(n - 1) + 1, arange(n - 1)] = 1
    k := 0;
    while k + 1 < n
      invariant k == 0 || k < n
      invariant forall j, i :: 0 <= j < n && 0 <= i < n ==>
        t[j, i] == if i == j || (i == j - 1 && j <= k) then 1.0 else 0.0
    {
      t[k + 1, k] := 1.0;
      k := k + 1;
    }
    // Skip an interior silence: transition[spaces + 1, spaces - 1] = 1
    if allowSkip {
      var s := 1;
      while s + 1 < n
        invariant 1 <= s && (s == 1 || s < n)
        invariant forall j, i :: 0 <= j < n && 0 <= i < n ==>
          t[j, i] == if i == j || i == j - 1 || (i == j - 2 && j - 1 < s && InteriorSilence(space, j - 1)) then 1.0 else 0.0
      {
        if space[s] {
          t[s + 1, s - 1] := 1.0;
        }
        s := s + 1;
      }
    }
  }

  /** `transition /= transition.sum(dim=1, keepdim=True)`: every entry is
      divided by the sum of its row, the sums being taken before any division.
      A zero row would give NaN in the source; it never occurs in decode. */
  method NormaliseRows(t: array2<real>)
    requires forall j :: 0 <= j < t.Length0 ==> RowSum(t, j, t.Length1) != 0.0
    modifies t
    ensures forall j, i :: 0 <= j < t.Length0 && 0 <= i < t.Length1 ==>
      t[j, i] == old(t[j, i]) / old(RowSum(t, j, t.Length1))
  {
    var rows, cols := t.Length0, t.Length1;
    var sums: seq<real> := [];
    var j := 0;
    while j < rows
      invariant 0 <= j <= rows && |sums| == j
      invariant forall r :: 0 <= r < j ==> sums[r] == RowSum(t, r, cols)
    {
      var acc := 0.0;
      var i := 0;
      while i < cols
        invariant 0 <= i <= cols && acc == RowSum(t, j, i)
      {
        acc := acc + t[j, i];
        i := i + 1;
      }
      sums := sums + [acc];
      j := j + 1;
    }
    j := 0;
    while j < rows
      invariant 0 <= j <= rows
      invariant forall r, c :: 0 <= r < j && 0 <= c < cols ==> t[r, c] == old(t[r, c]) / sums[r]
      invariant forall r, c :: j <= r < rows && 0 <= c < cols ==> t[r, c] == old(t[r, c])
    {
      var i := 0;
      while i < cols
        invariant 0 <= i <= cols
        invariant forall r, c :: 0 <= r < j && 0 <= c < cols ==> t[r, c] == old(t[r, c]) / sums[r]
        invariant forall c :: 0 <= c < i ==> t[j, c] == old(t[j, c]) / sums[j]
        invariant forall r, c :: (j < r < rows || (r == j && i <= c)) && 0 <= c < cols ==> t[r, c] == old(t[r, c])
      {
        t[j, i] := t[j, i] / sums[j];
        i := i + 1;
      }
      j := j + 1;
    }
  }

  /** `torch.log` of every entry, as a new matrix. */
  method LogMatrix(t: array2<real>, ln: real -> real) returns (l: array2<Score>)
    ensures fresh(l) && l.Length0 == t.Length0 && l.Length1 == t.Length1
    ensures forall j, i :: 0 <= j < t.Length0 && 0 <= i < t.Length1 ==> l[j, i] == Log(t[j, i], ln)
  {
    l := new Score[t.Length0, t.Length1]((j, i) reads t =>
      if 0 <= j < t.Length0 && 0 <= i < t.Length1 then Log(t[j, i], ln) else NegInf);
  }

  /** Normalisation followed by the log turns the 0/1 matrix into
      TransitionMatrix: log(1/k) on the k allowed entries of a row. */
  method NormaliseAndLog(t: array2<real>, space: seq<bool>, allowSkip: bool, ln: real -> real)
    returns (transition: array2<Score>)
    requires t.Length0 == t.Length1 == |space|
    requires forall j, i :: 0 <= j < |space| && 0 <= i < |space| ==> t[j, i] == Adjacency(space, allowSkip, j, i)
    modifies t
    ensures fresh(transition) && transition.Length0 == transition.Length1 == |space|
    ensures Matrix(transition) == TransitionMatrix(space, allowSkip, ln)
  {
    var n := |space|;
    forall j | 0 <= j < n
      ensures RowSum(t, j, n) == InDegree(space, allowSkip, j) as real
      ensures 1 <= InDegree(space, allowSkip, j) <= 3
    {
      AdjacencyRowSum(t, space, allowSkip, j);
    }
    NormaliseRows(t);
    transition := LogMatrix(t, ln);
    var expected := TransitionMatrix(space, allowSkip, ln);
    forall j, i | 0 <= j < n && 0 <= i < n
      ensures transition[j, i] == expected[j][i]
    {
      NormalisedLog(Adjacency(space, allowSkip, j, i), InDegree(space, allowSkip, j) as real, ln);
    }
    MatrixEquals(transition, expected);
  }

  /** A 0/1 weight divided by a row sum of at least 1, then logged. */
  lemma NormalisedLog(x: real, k: real, ln: real -> real)
    requires x == 0.0 || x == 1.0
    requires k >= 1.0
    ensures Log(x / k, ln) == if x == 1.0 then Fin(ln(1.0 / k)) else NegInf
  {
  }

  lemma MatrixEquals<T>(a: array2<T>, m: seq<seq<T>>)
    requires Shape(m, a.Length0, a.Length1)
    requires forall r, c :: 0 <= r < a.Length0 && 0 <= c < a.Length1 ==> a[r, c] == m[r][c]
    ensures Matrix(a) == m
  {
    forall r | 0 <= r < a.Length0
      ensures Matrix(a)[r] == m[r]
    {
      assert Row(a, r) == m[r];
    }
  }

  // ---------------------------------------------------------------------
  // Loud-silence mask (viterbi.py:47-58)
  // ---------------------------------------------------------------------

  /** Whether decode overwrites observation[t][p] with −∞. */
  predicate Masked(config: Config, loudness: Option<seq<real>>, space: seq<bool>, t: int, p: int)
  {
    && config.allowSkipSpace && !config.allowLoudSilence
    && loudness.Some? && 0 <= t < |loudness.value|
    && loudness.value[t] > config.silenceThreshold
    && InteriorSilence(space, p)
  }

  /** Clones the observation into `distribution`, then sets to −∞ every
      entry whose frame is louder than the threshold and whose phoneme is
      an interior silence (the boundary silences are excluded). */
  method MaskLoudSilence(observation: array2<Score>, space: seq<bool>, loudness: seq<real>, threshold: real)
    returns (distribution: array2<Score>)
    requires |space| == observation.Length1 && |loudness| == observation.Length0
    modifies observation
    ensures fresh(distribution)
    ensures distribution.Length0 == observation.Length0 && distribution.Length1 == observation.Length1
    ensures forall t, p :: 0 <= t < observation.Length0 && 0 <= p < observation.Length1 ==>
      distribution[t, p] == old(observation[t, p])
    ensures forall t, p :: 0 <= t < observation.Length0 && 0 <= p < observation.Length1 ==>
      observation[t, p] == if loudness[t] > threshold && InteriorSilence(space, p) then NegInf else old(observation[t, p])
  {
    var m, n := observation.Length0, observation.Length1;
    distribution := new Score[m, n]((t, p) reads observation =>
      if 0 <= t < m && 0 <= p < n then observation[t, p] else NegInf);
    var t := 0;
    while t < m
      invariant 0 <= t <= m
      invariant forall a, b :: 0 <= a < m && 0 <= b < n ==> distribution[a, b] == old(observation[a, b])
      invariant forall a, b :: 0 <= a < m && 0 <= b < n ==>
        observation[a, b] == if a < t && loudness[a] > threshold && InteriorSilence(space, b) then NegInf else old(observation[a, b])
    {
      var p := 0;
      while p < n
        invariant 0 <= p <= n
        invariant forall a, b :: 0 <= a < m && 0 <= b < n ==> distribution[a, b] == old(observation[a, b])
        invariant forall a, b :: 0 <= a < m && 0 <= b < n ==>
          observation[a, b] == if (a < t || (a == t && b < p)) && loudness[a] > threshold && InteriorSilence(space, b)
                               then NegInf else old(observation[a, b])
      {
        if loudness[t] > threshold && InteriorSilence(space, p) {
          observation[t, p] := NegInf;
        }
        p := p + 1;
      }
      t := t + 1;
    }
  }

  // ---------------------------------------------------------------------
  // Forward pass (viterbi.py:120-147)
  // ---------------------------------------------------------------------

  /** `posterior[t-1] + transition[j]`: the score of reaching j from each i. */
  function Candidates(prev: seq<Score>, trow: seq<Score>): (c: seq<Score>)
    requires |prev| == |trow|
    ensures |c| == |prev|
    ensures forall i :: 0 <= i < |prev| ==> c[i] == Add(prev[i], trow[i])
  {
    seq(|prev|, i requires 0 <= i < |prev| => Add(prev[i], trow[i]))
  }

  /** The recurrence the forward pass establishes, on plain matrices. */
  ghost predicate IsForward(obs: seq<seq<Score>>, trans: seq<seq<Score>>, init: seq<Score>,
                            post: seq<seq<Score>>, mem: seq<seq<int>>)
  {
    && ForwardShapes(obs, trans, init, post, mem)
    && (forall j :: 0 <= j < |init| ==> post[0][j] == Add(obs[0][j], init[j]))
    && (forall t, j :: 1 <= t < |obs| && 0 <= j < |init| ==> ForwardCell(obs, trans, init, post, mem, t, j))
  }

  ghost predicate ForwardShapes(obs: seq<seq<Score>>, trans: seq<seq<Score>>, init: seq<Score>,
                                post: seq<seq<Score>>, mem: seq<seq<int>>)
  {
    var m, n := |obs|, |init|;
    m >= 1 && Shape(obs, m, n) && Shape(trans, n, n) && Shape(post, m, n) && Shape(mem, m, n)
  }

  /** Cell (t, j) of the recurrence: the lowest best predecessor and the
      score through it. */
  ghost predicate ForwardCell(obs: seq<seq<Score>>, trans: seq<seq<Score>>, init: seq<Score>,
                              post: seq<seq<Score>>, mem: seq<seq<int>>, t: int, j: int)
    requires ForwardShapes(obs, trans, init, post, mem)
    requires 1 <= t < |obs| && 0 <= j < |init|
  {
    && mem[t][j] == ArgMax(Candidates(post[t - 1], trans[j]))
    && post[t][j] == Add(obs[t][j], Candidates(post[t - 1], trans[j])[mem[t][j]])
  }

  /** Row t of the recurrence holds at column j. */
  ghost predicate StepAt(observation: array2<Score>, transition: array2<Score>,
                         posterior: array2<Score>, memory: array2<int>, t: int, j: int)
    reads observation, transition, posterior, memory
    requires 1 <= t < posterior.Length0 && 0 <= j < posterior.Length1
    requires observation.Length0 == posterior.Length0 && observation.Length1 == posterior.Length1
    requires memory.Length0 == posterior.Length0 && memory.Length1 == posterior.Length1
    requires transition.Length0 == transition.Length1 == posterior.Length1
  {
    var c := Candidates(Row(posterior, t - 1), Row(transition, j));
    && memory[t, j] == ArgMax(c)
    && posterior[t, j] == Add(observation[t, j], c[memory[t, j]])
  }

  /** One step: for every destination j, the lowest best source and the
      score through it; nothing outside row t changes. */
  method Step(t: int, observation: array2<Score>, transition: array2<Score>,
              posterior: array2<Score>, memory: array2<int>)
    requires 1 <= t < posterior.Length0
    requires observation.Length0 == posterior.Length0 && observation.Length1 == posterior.Length1
    requires memory.Length0 == posterior.Length0 && memory.Length1 == posterior.Length1
    requires transition.Length0 == transition.Length1 == posterior.Length1
    requires posterior != observation && posterior != transition
    modifies posterior, memory
    ensures forall j :: 0 <= j < posterior.Length1 ==> StepAt(observation, transition, posterior, memory, t, j)
    ensures forall r, c :: 0 <= r < posterior.Length0 && r != t && 0 <= c < posterior.Length1 ==>
      posterior[r, c] == old(posterior[r, c]) && memory[r, c] == old(memory[r, c])
  {
    var n := posterior.Length1;
    var previous := Row(posterior, t - 1);
    // probability[j] = posterior[t - 1] + transition[j], maximised over each row
    var best: seq<int> := seq(n, j requires 0 <= j < n reads transition =>
      ArgMax(Candidates(previous, Row(transition, j))));
    var scores := seq(n, j requires 0 <= j < n reads transition, observation =>
      var probability := Candidates(previous, Row(transition, j));
      Add(observation[t, j], probability[ArgMax(probability)]));
    SetRow(memory, t, best);
    SetRow(posterior, t, scores);
    assert Row(posterior, t - 1) == previous;
  }

  /** Overwrites row r of `a` with `values`, leaving every other row alone. */
  method SetRow<T>(a: array2<T>, r: int, values: seq<T>)
    requires 0 <= r < a.Length0 && |values| == a.Length1
    modifies a
    ensures forall c :: 0 <= c < a.Length1 ==> a[r, c] == values[c]
    ensures forall q, c :: 0 <= q < a.Length0 && q != r && 0 <= c < a.Length1 ==> a[q, c] == old(a[q, c])
  {
    var c := 0;
    while c < a.Length1
      invariant 0 <= c <= a.Length1
      invariant forall k :: 0 <= k < c ==> a[r, k] == values[k]
      invariant forall q, k :: 0 <= q < a.Length0 && 0 <= k < a.Length1 && (q != r || k >= c) ==> a[q, k] == old(a[q, k])
    {
      a[r, c] := values[c];
      c := c + 1;
    }
  }

  method Forward(observation: array2<Score>, transition: array2<Score>, initial: seq<Score>)
    returns (posterior: array2<Score>, memory: array2<int>)
    requires observation.Length0 >= 1
    requires |initial| == observation.Length1
    requires transition.Length0 == transition.Length1 == observation.Length1
    ensures fresh(posterior) && fresh(memory)
    ensures posterior.Length0 == memory.Length0 == observation.Length0
    ensures posterior.Length1 == memory.Length1 == observation.Length1
    ensures IsForward(Matrix(observation), Matrix(transition), initial, Matrix(posterior), Matrix(memory))
  {
    var m, n := observation.Length0, observation.Length1;
    posterior := new Score[m, n]((_, _) => Fin(0.0));
    memory := new int[m, n]((_, _) => 0);
    // Add prior to first frame
    var first := seq(n, j requires 0 <= j < n reads observation => Add(observation[0, j], initial[j]));
    SetRow(posterior, 0, first);
    var t := 1;
    while t < m
      invariant 1 <= t <= m
      invariant forall c :: 0 <= c < n ==> posterior[0, c] == first[c]
      invariant forall tt, c :: 1 <= tt < t && 0 <= c < n ==> StepAt(observation, transition, posterior, memory, tt, c)
    {
      label before:
      Step(t, observation, transition, posterior, memory);
      forall tt, c | 1 <= tt < t && 0 <= c < n
        ensures StepAt(observation, transition, posterior, memory, tt, c)
      {
        assert old@before(StepAt(observation, transition, posterior, memory, tt, c));
        assert Row(posterior, tt - 1) == old@before(Row(posterior, tt - 1));
      }
      t := t + 1;
    }
    ForwardFromArrays(observation, transition, initial, posterior, memory);
  }

  lemma ForwardFromArrays(observation: array2<Score>, transition: array2<Score>, initial: seq<Score>,
                          posterior: array2<Score>, memory: array2<int>)
    requires observation.Length0 >= 1
    requires |initial| == observation.Length1
    requires transition.Length0 == transition.Length1 == observation.Length1
    requires posterior.Length0 == memory.Length0 == observation.Length0
    requires posterior.Length1 == memory.Length1 == observation.Length1
    requires forall c :: 0 <= c < observation.Length1 ==> posterior[0, c] == Add(observation[0, c], initial[c])
    requires forall tt, c :: 1 <= tt < observation.Length0 && 0 <= c < observation.Length1 ==>
      StepAt(observation, transition, posterior, memory, tt, c)
    ensures IsForward(Matrix(observation), Matrix(transition), initial, Matrix(posterior), Matrix(memory))
  {
    var obs, trans, post, mem := Matrix(observation), Matrix(transition), Matrix(posterior), Matrix(memory);
    forall t, j | 1 <= t < |obs| && 0 <= j < |initial|
      ensures mem[t][j] == ArgMax(Candidates(post[t - 1], trans[j]))
      ensures post[t][j] == Add(obs[t][j], Candidates(post[t - 1], trans[j])[mem[t][j]])
    {
      assert StepAt(observation, transition, posterior, memory, t, j);
    }
  }

  // ---------------------------------------------------------------------
  // End and backward pass (viterbi.py:71-76, 104-117)
  // ---------------------------------------------------------------------

  /** The last row after `posterior[-1] = -inf; posterior[-1, -1] = 0.` */
  function Final(n: nat): (row: seq<Score>)
    ensures |row| == n
    ensures forall j :: 0 <= j < n ==> row[j] == if j == n - 1 then Fin(0.0) else NegInf
  {
    seq(n, j requires 0 <= j < n => if j == n - 1 then Fin(0.0) else NegInf)
  }

  /** Forcing the last row makes the last phoneme the only end point. */
  lemma FinalArgMax(n: nat)
    requires n >= 1
    ensures ArgMax(Final(n)) == n - 1
  {
    assert IsArgMax(Final(n), n - 1);
    ArgMaxUnique(Final(n), ArgMax(Final(n)), n - 1);
  }

  method ForceFinal(posterior: array2<Score>)
    requires posterior.Length0 >= 1 && posterior.Length1 >= 1
    modifies posterior
    ensures Row(posterior, posterior.Length0 - 1) == Final(posterior.Length1)
    ensures forall r, c :: 0 <= r < posterior.Length0 - 1 && 0 <= c < posterior.Length1 ==>
      posterior[r, c] == old(posterior[r, c])
  {
    var m, n := posterior.Length0, posterior.Length1;
    SetRow(posterior, m - 1, seq(n, k => NegInf));
    posterior[m - 1, n - 1] := Fin(0.0);
    assert Row(posterior, m - 1) == Final(n);
  }

  /** `memory` rows 1.. hold positions (row 0 is never read). */
  ghost predicate MemoryInRange(mem: seq<seq<int>>, n: nat)
  {
    forall t, j :: 1 <= t < |mem| && 0 <= j < n && j < |mem[t]| ==> 0 <= mem[t][j] < n
  }

  predicate InRange(p: seq<int>, n: int)
  {
    forall t :: 0 <= t < |p| ==> 0 <= p[t] < n
  }

  /** `path` follows the back-links from `last` at the final frame. */
  ghost predicate IsBacktrack(mem: seq<seq<int>>, last: int, path: seq<int>)
  {
    && |path| == |mem| >= 1
    && path[|mem| - 1] == last
    && (forall t :: 1 <= t < |mem| ==> Linked(mem, path, t))
  }

  /** At frame t the path sits on a back-link: its entry at t - 1 is the
      one memory records for its entry at t. */
  ghost predicate Linked(mem: seq<seq<int>>, path: seq<int>, t: int)
  {
    1 <= t < |mem| && t < |path| && 0 <= path[t] < |mem[t]| && path[t - 1] == mem[t][path[t]]
  }

  method Backward(posterior: array2<Score>, memory: array2<int>) returns (indices: seq<int>)
    requires posterior.Length0 >= 1 && posterior.Length1 >= 1
    requires memory.Length0 == posterior.Length0 && memory.Length1 == posterior.Length1
    requires forall t, j :: 1 <= t < memory.Length0 && 0 <= j < memory.Length1 ==> 0 <= memory[t, j] < memory.Length1
    ensures |indices| == posterior.Length0 && InRange(indices, posterior.Length1)
    ensures indices[|indices| - 1] == ArgMax(Row(posterior, posterior.Length0 - 1))
    ensures forall t :: 1 <= t < |indices| ==> indices[t - 1] == memory[t, indices[t]]
  {
    var m, n := posterior.Length0, posterior.Length1;
    var last := ArgMax(Row(posterior, m - 1));
    var a := new int[m](_ => last);
    var t := m - 2;
    while t >= 0
      invariant -1 <= t <= m - 2
      invariant a[m - 1] == last
      invariant forall k :: t < k < m ==> 0 <= a[k] < n
      invariant forall k :: t + 2 <= k < m ==> a[k - 1] == memory[k, a[k]]
      decreases t + 1
    {
      a[t] := memory[t + 1, a[t + 1]];
      t := t - 1;
    }
    indices := a[..];
  }

  lemma MemoryArrayInRange(memory: array2<int>)
    requires MemoryInRange(Matrix(memory), memory.Length1)
    ensures forall t, j :: 1 <= t < memory.Length0 && 0 <= j < memory.Length1 ==> 0 <= memory[t, j] < memory.Length1
  {
    forall t, j | 1 <= t < memory.Length0 && 0 <= j < memory.Length1
      ensures 0 <= memory[t, j] < memory.Length1
    {
      assert Matrix(memory)[t][j] == memory[t, j];
    }
  }

  /** The array form of Backward's result is a backtrack through memory. */
  lemma BackwardIsBacktrack(memory: array2<int>, last: int, indices: seq<int>)
    requires |indices| == memory.Length0 >= 1 && InRange(indices, memory.Length1)
    requires indices[|indices| - 1] == last
    requires forall t :: 1 <= t < |indices| ==> indices[t - 1] == memory[t, indices[t]]
    ensures IsBacktrack(Matrix(memory), last, indices)
  {
    var mem := Matrix(memory);
    forall t | 1 <= t < |mem|
      ensures 0 <= indices[t] < |mem[t]| && indices[t - 1] == mem[t][indices[t]]
    {
      assert mem[t] == Row(memory, t);
    }
  }

  // ---------------------------------------------------------------------
  // Paths: what the decoder computes
  // ---------------------------------------------------------------------

  /** An observation, a transition matrix and an initial vector of agreeing sizes. */
  ghost predicate Dims(obs: seq<seq<Score>>, trans: seq<seq<Score>>, init: seq<Score>)
  {
    |obs| >= 1 && Shape(obs, |obs|, |init|) && Shape(trans, |init|, |init|)
  }

  /** The log score of a path of phoneme positions over frames 0..|p|-1:
      initial and observation scores plus the score of every transition. */
  ghost function PathScore(obs: seq<seq<Score>>, trans: seq<seq<Score>>, init: seq<Score>, p: seq<int>): Score
    requires Dims(obs, trans, init)
    requires 1 <= |p| <= |obs| && InRange(p, |init|)
    decreases |p|
  {
    if |p| == 1 then Add(obs[0][p[0]], init[p[0]])
    else
      Add(obs[|p| - 1][p[|p| - 1]],
          Add(PathScore(obs, trans, init, p[..|p| - 1]), trans[p[|p| - 1]][p[|p| - 2]]))
  }

  /** The path the back-links give from phoneme j at frame t. */
  ghost function Back(mem: seq<seq<int>>, n: nat, t: nat, j: int): (p: seq<int>)
    requires Shape(mem, |mem|, n) && MemoryInRange(mem, n)
    requires t < |mem| && 0 <= j < n
    ensures |p| == t + 1 && p[t] == j && InRange(p, n)
    decreases t
  {
    if t == 0 then [j] else Back(mem, n, t - 1, mem[t][j]) + [j]
  }

  lemma ForwardMemoryInRange(obs: seq<seq<Score>>, trans: seq<seq<Score>>, init: seq<Score>,
                             post: seq<seq<Score>>, mem: seq<seq<int>>)
    requires IsForward(obs, trans, init, post, mem)
    ensures MemoryInRange(mem, |init|)
  {
    forall t, j | 1 <= t < |mem| && 0 <= j < |init| && j < |mem[t]|
      ensures 0 <= mem[t][j] < |init|
    {
      assert ForwardCell(obs, trans, init, post, mem, t, j);
    }
  }

  /** The back-link path from (t, j) scores exactly posterior[t][j]. */
  lemma {:induction false} BackScore(obs: seq<seq<Score>>, trans: seq<seq<Score>>, init: seq<Score>,
                                     post: seq<seq<Score>>, mem: seq<seq<int>>, t: nat, j: int)
    requires IsForward(obs, trans, init, post, mem)
    requires t < |obs| && 0 <= j < |init|
    ensures MemoryInRange(mem, |init|)
    ensures PathScore(obs, trans, init, Back(mem, |init|, t, j)) == post[t][j]
    decreases t
  {
    ForwardMemoryInRange(obs, trans, init, post, mem);
    var n := |init|;
    if t > 0 {
      assert ForwardCell(obs, trans, init, post, mem, t, j);
      var k := mem[t][j];
      BackScore(obs, trans, init, post, mem, t - 1, k);
      var p := Back(mem, n, t, j);
      assert p[..t] == Back(mem, n, t - 1, k);
      assert p[t - 1] == k;
    }
  }

  /** No path ending at (t, j) scores more than posterior[t][j]. */
  lemma {:induction false} PosteriorIsMaximum(obs: seq<seq<Score>>, trans: seq<seq<Score>>, init: seq<Score>,
                                              post: seq<seq<Score>>, mem: seq<seq<int>>, q: seq<int>)
    requires IsForward(obs, trans, init, post, mem)
    requires 1 <= |q| <= |obs| && InRange(q, |init|)
    ensures Le(PathScore(obs, trans, init, q), post[|q| - 1][q[|q| - 1]])
    decreases |q|
  {
    var t := |q| - 1;
    if t == 0 {
      LeTotal(post[0][q[0]], post[0][q[0]]);
    } else {
      var j, i := q[t], q[t - 1];
      var prefix := q[..t];
      PosteriorIsMaximum(obs, trans, init, post, mem, prefix);
      assert prefix[t - 1] == i;
      assert ForwardCell(obs, trans, init, post, mem, t, j);
      var c := Candidates(post[t - 1], trans[j]);
      var k := mem[t][j];
      AddMonotone(PathScore(obs, trans, init, prefix), post[t - 1][i], trans[j][i]);
      assert Le(c[i], c[k]);
      LeTransitive(Add(PathScore(obs, trans, init, prefix), trans[j][i]), c[i], c[k]);
      AddMonotone(Add(PathScore(obs, trans, init, prefix), trans[j][i]), c[k], obs[t][j]);
    }
  }

  /** The backtracked path is the back-link path from its last entry:
      every prefix of it is Back from that prefix's end. */
  lemma {:induction false} BacktrackIsBack(mem: seq<seq<int>>, n: nat, last: int, path: seq<int>, t: nat)
    requires Shape(mem, |mem|, n) && MemoryInRange(mem, n)
    requires IsBacktrack(mem, last, path) && InRange(path, n)
    requires t < |path|
    ensures path[..t + 1] == Back(mem, n, t, path[t])
    decreases t
  {
    if t > 0 {
      BacktrackIsBack(mem, n, last, path, t - 1);
      assert Linked(mem, path, t);
      assert path[..t + 1] == path[..t] + [path[t]];
    } else {
      assert path[..1] == [path[0]];
    }
  }

  /** A path the transition structure allows: it starts on the first
      phoneme, every frame has a finite observation and every step stays,
      advances by one or skips one interior silence. */
  ghost predicate ValidPath(obs: seq<seq<Score>>, space: seq<bool>, allowSkip: bool, p: seq<int>)
    requires Shape(obs, |obs|, |space|) && |p| <= |obs| && InRange(p, |space|)
  {
    && |p| >= 1 && p[0] == 0
    && (forall t :: 0 <= t < |p| ==> obs[t][p[t]].Fin?)
    && (forall t :: 1 <= t < |p| ==> Allowed(space, allowSkip, p[t], p[t - 1]))
  }

  /** A complete alignment: valid, over every frame, ending on the last phoneme. */
  ghost predicate Feasible(obs: seq<seq<Score>>, space: seq<bool>, allowSkip: bool, p: seq<int>)
  {
    && Shape(obs, |obs|, |space|) && |space| >= 1
    && |p| == |obs| >= 1 && InRange(p, |space|)
    && p[|p| - 1] == |space| - 1
    && ValidPath(obs, space, allowSkip, p)
  }

  /** Which entries of a transition matrix and an initial vector are finite. */
  ghost predicate FiniteExactlyWhereAllowed(trans: seq<seq<Score>>, init: seq<Score>, space: seq<bool>, allowSkip: bool)
  {
    && |init| == |space| && Shape(trans, |space|, |space|)
    && (forall j, i :: 0 <= j < |space| && 0 <= i < |space| ==> (trans[j][i].Fin? <==> Allowed(space, allowSkip, j, i)))
    && (forall j :: 0 <= j < |space| ==> (init[j].Fin? <==> j == 0))
  }

  lemma DecodeTransitionFinite(space: seq<bool>, allowSkip: bool, ln: real -> real)
    ensures FiniteExactlyWhereAllowed(TransitionMatrix(space, allowSkip, ln), Initial(|space|), space, allowSkip)
  {
  }

  /** Under such a matrix and vector a path scores finitely exactly when
      the transition structure allows it. */
  lemma {:induction false} FiniteIffValid(obs: seq<seq<Score>>, trans: seq<seq<Score>>, init: seq<Score>,
                                          space: seq<bool>, allowSkip: bool, p: seq<int>)
    requires Dims(obs, trans, init) && FiniteExactlyWhereAllowed(trans, init, space, allowSkip)
    requires 1 <= |p| <= |obs| && InRange(p, |space|)
    ensures PathScore(obs, trans, init, p).Fin? <==> ValidPath(obs, space, allowSkip, p)
    decreases |p|
  {
    var t := |p| - 1;
    if t > 0 {
      var prefix := p[..t];
      FiniteIffValid(obs, trans, init, space, allowSkip, prefix);
      ValidPathSnoc(obs, space, allowSkip, p);
      assert trans[p[t]][p[t - 1]].Fin? <==> Allowed(space, allowSkip, p[t], p[t - 1]);
    }
  }

  /** A path of two frames or more is valid when its prefix is and its last step and frame are. */
  lemma ValidPathSnoc(obs: seq<seq<Score>>, space: seq<bool>, allowSkip: bool, p: seq<int>)
    requires Shape(obs, |obs|, |space|) && 2 <= |p| <= |obs| && InRange(p, |space|)
    ensures ValidPath(obs, space, allowSkip, p) <==>
      && ValidPath(obs, space, allowSkip, p[..|p| - 1])
      && obs[|p| - 1][p[|p| - 1]].Fin?
      && Allowed(space, allowSkip, p[|p| - 1], p[|p| - 2])
  {
    var prefix := p[..|p| - 1];
    assert forall s :: 0 <= s < |prefix| ==> prefix[s] == p[s];
  }

  /** The backtracked path from the last phoneme scores posterior[M-1][N-1]. */
  lemma BacktrackScore(obs: seq<seq<Score>>, trans: seq<seq<Score>>, init: seq<Score>,
                       post: seq<seq<Score>>, mem: seq<seq<int>>, path: seq<int>)
    requires |init| >= 1
    requires IsForward(obs, trans, init, post, mem)
    requires IsBacktrack(mem, |init| - 1, path) && InRange(path, |init|)
    ensures PathScore(obs, trans, init, path) == post[|obs| - 1][|init| - 1]
  {
    BacktrackPrefixScore(obs, trans, init, post, mem, path, |path| - 1);
    assert path[..|path|] == path;
  }

  /** Each prefix of the backtracked path scores the posterior of where it ends. */
  lemma BacktrackPrefixScore(obs: seq<seq<Score>>, trans: seq<seq<Score>>, init: seq<Score>,
                             post: seq<seq<Score>>, mem: seq<seq<int>>, path: seq<int>, t: nat)
    requires |init| >= 1
    requires IsForward(obs, trans, init, post, mem)
    requires IsBacktrack(mem, |init| - 1, path) && InRange(path, |init|)
    requires t < |path|
    ensures PathScore(obs, trans, init, path[..t + 1]) == post[t][path[t]]
  {
    assert Shape(mem, |mem|, |init|) by {
      assert ForwardShapes(obs, trans, init, post, mem);
    }
    BackScore(obs, trans, init, post, mem, t, path[t]);
    BacktrackIsBack(mem, |init|, |init| - 1, path, t);
  }

  /** What decode's forward and backward passes achieve, for the
      back-link path from the last phoneme at the last frame: it scores
      the maximum over all paths ending on the last phoneme. */
  lemma BacktrackOptimal(obs: seq<seq<Score>>, trans: seq<seq<Score>>, init: seq<Score>,
                         post: seq<seq<Score>>, mem: seq<seq<int>>, path: seq<int>)
    requires |init| >= 1
    requires IsForward(obs, trans, init, post, mem)
    requires IsBacktrack(mem, |init| - 1, path) && InRange(path, |init|)
    ensures forall q :: |q| == |obs| && InRange(q, |init|) && q[|q| - 1] == |init| - 1 ==>
      Le(PathScore(obs, trans, init, q), PathScore(obs, trans, init, path))
  {
    BacktrackScore(obs, trans, init, post, mem, path);
    forall q | |q| == |obs| && InRange(q, |init|) && q[|q| - 1] == |init| - 1
      ensures Le(PathScore(obs, trans, init, q), PathScore(obs, trans, init, path))
    {
      PosteriorIsMaximum(obs, trans, init, post, mem, q);
    }
  }

  /** Under decode's transitions the backtracked path is a complete
      alignment exactly when the final posterior is finite. */
  lemma BacktrackFeasible(obs: seq<seq<Score>>, space: seq<bool>, allowSkip: bool, ln: real -> real,
                          post: seq<seq<Score>>, mem: seq<seq<int>>, path: seq<int>)
    requires |space| >= 1
    requires IsForward(obs, TransitionMatrix(space, allowSkip, ln), Initial(|space|), post, mem)
    requires IsBacktrack(mem, |space| - 1, path) && InRange(path, |space|)
    ensures Feasible(obs, space, allowSkip, path) <==> post[|obs| - 1][|space| - 1].Fin?
  {
    BacktrackScore(obs, TransitionMatrix(space, allowSkip, ln), Initial(|space|), post, mem, path);
    DecodeTransitionFinite(space, allowSkip, ln);
    FiniteIffValid(obs, TransitionMatrix(space, allowSkip, ln), Initial(|space|), space, allowSkip, path);
  }

  /** If any complete alignment exists, the decoded path is one. */
  lemma DecodedPathFeasible(obs: seq<seq<Score>>, space: seq<bool>, allowSkip: bool, ln: real -> real,
                            post: seq<seq<Score>>, mem: seq<seq<int>>, path: seq<int>, q: seq<int>)
    requires |space| >= 1
    requires IsForward(obs, TransitionMatrix(space, allowSkip, ln), Initial(|space|), post, mem)
    requires IsBacktrack(mem, |space| - 1, path) && InRange(path, |space|)
    requires Feasible(obs, space, allowSkip, q)
    ensures Feasible(obs, space, allowSkip, path)
  {
    var trans, init := TransitionMatrix(space, allowSkip, ln), Initial(|space|);
    BacktrackFeasible(obs, space, allowSkip, ln, post, mem, path);
    DecodeTransitionFinite(space, allowSkip, ln);
    FiniteIffValid(obs, trans, init, space, allowSkip, q);
    PosteriorIsMaximum(obs, trans, init, post, mem, q);
  }

  /** Posterior row 0 is finite at most on the first phoneme. */
  lemma FirstRowFinite(obs: seq<seq<Score>>, trans: seq<seq<Score>>, post: seq<seq<Score>>,
                       mem: seq<seq<int>>, n: nat, j: int)
    requires IsForward(obs, trans, Initial(n), post, mem)
    requires 0 <= j < n && post[0][j].Fin?
    ensures j == 0
  {
  }

  /** A finite posterior cell was reached from its back-link along an
      allowed edge, from a finite cell of the previous frame. */
  lemma FinitePredecessor(obs: seq<seq<Score>>, space: seq<bool>, allowSkip: bool, ln: real -> real,
                          post: seq<seq<Score>>, mem: seq<seq<int>>, t: int, j: int)
    requires IsForward(obs, TransitionMatrix(space, allowSkip, ln), Initial(|space|), post, mem)
    requires 1 <= t < |obs| && 0 <= j < |space| && post[t][j].Fin?
    ensures 0 <= mem[t][j] < |space|
    ensures Allowed(space, allowSkip, j, mem[t][j]) && post[t - 1][mem[t][j]].Fin? && obs[t][j].Fin?
  {
    assert ForwardCell(obs, TransitionMatrix(space, allowSkip, ln), Initial(|space|), post, mem, t, j);
  }

  /** Without skip edges a frame t cannot have passed phoneme t. */
  lemma {:induction false} NoSkipReach(obs: seq<seq<Score>>, space: seq<bool>, ln: real -> real,
                                       post: seq<seq<Score>>, mem: seq<seq<int>>, t: nat, j: int)
    requires IsForward(obs, TransitionMatrix(space, false, ln), Initial(|space|), post, mem)
    requires t < |obs| && 0 <= j < |space| && j > t
    ensures post[t][j] == NegInf
    decreases t
  {
    if t > 0 && post[t][j].Fin? {
      FinitePredecessor(obs, space, false, ln, post, mem, t, j);
      NoSkipReach(obs, space, ln, post, mem, t - 1, mem[t][j]);
    }
  }

  /** Along a complete alignment every step stays, advances by one, or
      advances by two across an interior silence when skipping is allowed. */
  lemma FeasibleSteps(obs: seq<seq<Score>>, space: seq<bool>, allowSkip: bool, p: seq<int>, t: int)
    requires Feasible(obs, space, allowSkip, p) && 1 <= t < |p|
    ensures p[t] == p[t - 1] || p[t] == p[t - 1] + 1
         || (p[t] == p[t - 1] + 2 && allowSkip && InteriorSilence(space, p[t] - 1))
  {
    assert Allowed(space, allowSkip, p[t], p[t - 1]);
  }

  /** Along a valid path the phoneme position never decreases. */
  lemma {:induction false} ValidPathMonotone(obs: seq<seq<Score>>, space: seq<bool>, allowSkip: bool,
                                             p: seq<int>, t: nat)
    requires Shape(obs, |obs|, |space|) && |p| <= |obs| && InRange(p, |space|)
    requires ValidPath(obs, space, allowSkip, p) && t < |p|
    ensures forall a :: 0 <= a <= t ==> p[a] <= p[t]
    decreases t
  {
    if t > 0 {
      ValidPathMonotone(obs, space, allowSkip, p, t - 1);
      assert Allowed(space, allowSkip, p[t], p[t - 1]);
    }
  }

  /** Phoneme q occupies at least one of the frames 0..t of the path. */
  ghost predicate Visited(p: seq<int>, q: int, t: int)
  {
    exists k :: 0 <= k <= t && k < |p| && p[k] == q
  }

  /** A valid path passes over no phoneme except an interior silence it
      is allowed to skip: every other position up to where it has reached
      receives at least one frame. */
  lemma {:induction false} ValidPathCovers(obs: seq<seq<Score>>, space: seq<bool>, allowSkip: bool,
                                           p: seq<int>, t: nat)
    requires Shape(obs, |obs|, |space|) && |p| <= |obs| && InRange(p, |space|)
    requires ValidPath(obs, space, allowSkip, p) && t < |p|
    ensures forall q :: 0 <= q <= p[t] && !(allowSkip && InteriorSilence(space, q)) ==> Visited(p, q, t)
    decreases t
  {
    if t > 0 {
      var s := t - 1;
      ValidPathCovers(obs, space, allowSkip, p, s);
      assert Allowed(space, allowSkip, p[t], p[s]);
      forall q | 0 <= q <= p[t] && !(allowSkip && InteriorSilence(space, q))
        ensures Visited(p, q, t)
      {
        if q <= p[s] {
          assert Visited(p, q, s);
          var k :| 0 <= k <= s && k < |p| && p[k] == q;
          assert 0 <= k <= t;
        } else {
          assert p[t] == q;
        }
      }
    } else {
      forall q | 0 <= q <= p[0] ensures Visited(p, q, 0) {
        assert p[0] == q;
      }
    }
  }

  // ---------------------------------------------------------------------
  // decode (viterbi.py:11-96)
  // ---------------------------------------------------------------------

  /** The observation after the loud-silence mask. */
  function MaskedObservation(obs: seq<seq<Score>>, config: Config, loudness: Option<seq<real>>,
                             space: seq<bool>): (o: seq<seq<Score>>)
    requires Shape(obs, |obs|, |space|)
    ensures Shape(o, |obs|, |space|)
    ensures forall t, p :: 0 <= t < |obs| && 0 <= p < |space| ==>
      o[t][p] == if Masked(config, loudness, space, t, p) then NegInf else obs[t][p]
  {
    seq(|obs|, t requires 0 <= t < |obs| =>
      seq(|space|, p requires 0 <= p < |space| =>
        if Masked(config, loudness, space, t, p) then NegInf else obs[t][p]))
  }

  /** The (index, count) pairs of a decoded alignment. */
  function Pairs(d: Decoded): (rs: seq<Runs.Run<int>>)
    requires |d.indices| == |d.counts|
    ensures |rs| == |d.indices|
    ensures forall k :: 0 <= k < |rs| ==> rs[k] == Runs.Run(d.indices[k], d.counts[k])
  {
    seq(|d.indices|, k requires 0 <= k < |d.indices| => Runs.Run(d.indices[k], d.counts[k]))
  }

  /** The fresh tensor `log_softmax` produces, masked in place when loud
      silences are not allowed. */
  method MaskedCopy(observation: array2<Score>, space: seq<bool>, config: Config, loudness: Option<seq<real>>)
    returns (obs: array2<Score>)
    requires |space| == observation.Length1
    requires !MissingLoudness(config, loudness) && !LoudnessMisshapen(config, loudness, observation.Length0)
    ensures fresh(obs) && obs.Length0 == observation.Length0 && obs.Length1 == observation.Length1
    ensures Matrix(obs) == MaskedObservation(Matrix(observation), config, loudness, space)
  {
    var m, n := observation.Length0, observation.Length1;
    obs := new Score[m, n]((t, p) reads observation =>
      if 0 <= t < m && 0 <= p < n then observation[t, p] else NegInf);
    if config.allowSkipSpace && !config.allowLoudSilence {
      var distribution := MaskLoudSilence(obs, space, loudness.value, config.silenceThreshold);
    }
    MatrixEquals(obs, MaskedObservation(Matrix(observation), config, loudness, space));
  }

  /** decode's configuration asks for the loudness it was not given. */
  predicate MissingLoudness(config: Config, loudness: Option<seq<real>>)
  {
    config.allowSkipSpace && !config.allowLoudSilence && loudness.None?
  }

  /** The mask cannot be built: a single loudness value squeezes to a 0-d
      tensor, which `[:, None]` cannot index, and loudness of another
      length than the frames gives a mask of the wrong shape. Both raise
      IndexError. */
  predicate LoudnessMisshapen(config: Config, loudness: Option<seq<real>>, frames: nat)
  {
    && config.allowSkipSpace && !config.allowLoudSilence && loudness.Some?
    && (|loudness.value| == 1 || |loudness.value| != frames)
  }

  /** `path` is a best alignment of `obs`: it covers every frame, ends on
      the last phoneme, scores at least as much as every such path, and is
      a complete alignment whenever one exists. */
  ghost predicate BestAlignment(obs: seq<seq<Score>>, space: seq<bool>, allowSkip: bool, ln: real -> real, path: seq<int>)
  {
    && |space| >= 1 && |obs| >= 1 && Shape(obs, |obs|, |space|)
    && |path| == |obs| && InRange(path, |space|) && path[|obs| - 1] == |space| - 1
    && (forall q :: |q| == |obs| && InRange(q, |space|) && q[|q| - 1] == |space| - 1 ==>
          Le(PathScore(obs, TransitionMatrix(space, allowSkip, ln), Initial(|space|), q),
             PathScore(obs, TransitionMatrix(space, allowSkip, ln), Initial(|space|), path)))
    && (forall q :: Feasible(obs, space, allowSkip, q) ==> Feasible(obs, space, allowSkip, path))
  }

  /** `d` is a decoding of `obs`: the canonical run-length encoding of a
      best alignment. */
  ghost predicate IsDecoding(obs: seq<seq<Score>>, space: seq<bool>, allowSkip: bool, ln: real -> real, d: Decoded)
  {
    && |d.indices| == |d.counts|
    && Runs.Canonical(Pairs(d))
    && BestAlignment(obs, space, allowSkip, ln, Runs.Expand(Pairs(d)))
    && Selected(obs, TransitionMatrix(space, allowSkip, ln), Initial(|space|), Runs.Expand(Pairs(d)))
  }

  /** `path` is the one the two passes pick: the back-links of the forward
      recurrence followed from the last phoneme at the last frame. */
  ghost predicate Selected(obs: seq<seq<Score>>, trans: seq<seq<Score>>, init: seq<Score>, path: seq<int>)
  {
    exists post, mem :: IsForward(obs, trans, init, post, mem) && IsBacktrack(mem, |init| - 1, path)
  }

  /** The forward recurrence fixes every posterior row. */
  lemma {:induction false} ForwardRowsAgree(obs: seq<seq<Score>>, trans: seq<seq<Score>>, init: seq<Score>,
                                            post1: seq<seq<Score>>, mem1: seq<seq<int>>,
                                            post2: seq<seq<Score>>, mem2: seq<seq<int>>, t: nat)
    requires IsForward(obs, trans, init, post1, mem1) && IsForward(obs, trans, init, post2, mem2)
    requires t < |obs|
    ensures post1[t] == post2[t]
    ensures t >= 1 ==> forall j :: 0 <= j < |init| ==> mem1[t][j] == mem2[t][j]
  {
    var n := |init|;
    if t == 0 {
      assert forall j :: 0 <= j < n ==> post1[0][j] == post2[0][j];
    } else {
      ForwardRowsAgree(obs, trans, init, post1, mem1, post2, mem2, t - 1);
      forall j | 0 <= j < n
        ensures mem1[t][j] == mem2[t][j] && post1[t][j] == post2[t][j]
      {
        assert ForwardCell(obs, trans, init, post1, mem1, t, j);
        assert ForwardCell(obs, trans, init, post2, mem2, t, j);
      }
    }
  }

  /** Two back-link paths through memories that agree on every link, from
      the same last entry, agree from frame t on. */
  lemma {:induction false} BacktrackAgree(mem1: seq<seq<int>>, mem2: seq<seq<int>>, last: int,
                                          p: seq<int>, q: seq<int>, t: nat)
    requires IsBacktrack(mem1, last, p) && IsBacktrack(mem2, last, q) && |mem1| == |mem2|
    requires forall u, j :: 1 <= u < |mem1| && 0 <= j < |mem1[u]| && j < |mem2[u]| ==> mem1[u][j] == mem2[u][j]
    requires t < |p|
    ensures p[t] == q[t]
    decreases |p| - t
  {
    if t < |p| - 1 {
      BacktrackAgree(mem1, mem2, last, p, q, t + 1);
      assert Linked(mem1, p, t + 1) && Linked(mem2, q, t + 1);
    }
  }

  /** The two passes select exactly one path. */
  lemma SelectedUnique(obs: seq<seq<Score>>, trans: seq<seq<Score>>, init: seq<Score>, p: seq<int>, q: seq<int>)
    requires Selected(obs, trans, init, p) && Selected(obs, trans, init, q)
    ensures p == q
  {
    var post1, mem1 :| IsForward(obs, trans, init, post1, mem1) && IsBacktrack(mem1, |init| - 1, p);
    var post2, mem2 :| IsForward(obs, trans, init, post2, mem2) && IsBacktrack(mem2, |init| - 1, q);
    forall u, j | 1 <= u < |mem1| && 0 <= j < |mem1[u]| && j < |mem2[u]|
      ensures mem1[u][j] == mem2[u][j]
    {
      ForwardRowsAgree(obs, trans, init, post1, mem1, post2, mem2, u);
    }
    forall t | 0 <= t < |p|
      ensures p[t] == q[t]
    {
      BacktrackAgree(mem1, mem2, |init| - 1, p, q, t);
    }
  }

  /** The forward pass, the forced end and the backward pass
      (viterbi.py:69-76). */
  method BestPath(obs: array2<Score>, transition: array2<Score>,
                  ghost space: seq<bool>, ghost allowSkip: bool, ghost ln: real -> real)
    returns (indices: seq<int>)
    requires obs.Length0 >= 1 && obs.Length1 >= 1 && |space| == obs.Length1
    requires transition.Length0 == transition.Length1 == obs.Length1
    requires Matrix(transition) == TransitionMatrix(space, allowSkip, ln)
    ensures BestAlignment(Matrix(obs), space, allowSkip, ln, indices)
    ensures Selected(Matrix(obs), Matrix(transition), Initial(obs.Length1), indices)
  {
    var n := obs.Length1;
    var posterior, memory := Forward(obs, transition, Initial(n));
    ghost var post, mem := Matrix(posterior), Matrix(memory);
    ForwardMemoryInRange(Matrix(obs), Matrix(transition), Initial(n), post, mem);
    MemoryArrayInRange(memory);
    ForceFinal(posterior);
    FinalArgMax(n);
    indices := Backward(posterior, memory);
    BackwardIsBacktrack(memory, n - 1, indices);
    BacktrackIsBest(Matrix(obs), space, allowSkip, ln, post, mem, indices);
    assert IsForward(Matrix(obs), Matrix(transition), Initial(n), post, mem) && IsBacktrack(mem, n - 1, indices);
  }

  /** The backtracked path from the last phoneme is a best alignment. */
  lemma BacktrackIsBest(obs: seq<seq<Score>>, space: seq<bool>, allowSkip: bool, ln: real -> real,
                        post: seq<seq<Score>>, mem: seq<seq<int>>, path: seq<int>)
    requires |space| >= 1
    requires IsForward(obs, TransitionMatrix(space, allowSkip, ln), Initial(|space|), post, mem)
    requires IsBacktrack(mem, |space| - 1, path) && InRange(path, |space|)
    ensures BestAlignment(obs, space, allowSkip, ln, path)
  {
    BacktrackOptimal(obs, TransitionMatrix(space, allowSkip, ln), Initial(|space|), post, mem, path);
    forall q | Feasible(obs, space, allowSkip, q)
      ensures Feasible(obs, space, allowSkip, path)
    {
      DecodedPathFeasible(obs, space, allowSkip, ln, post, mem, path, q);
    }
  }

  /** decode on the log-probabilities `observation` (frames × phonemes) of
      the utterance `phonemes`. The source normalises raw logits with
      `log_softmax` into a fresh tensor; here `observation` is that result,
      and decode masks its own copy of it. */
  method Decode(phonemes: seq<int>, silence: int, observation: array2<Score>,
                loudness: Option<seq<real>>, config: Config, ln: real -> real)
    returns (r: Result<Decoded>)
    requires |phonemes| == observation.Length1
    ensures observation.Length1 == 0 ==> r == Err(IndexError)
    ensures observation.Length1 > 0 && MissingLoudness(config, loudness) ==> r == Err(AttributeError)
    ensures observation.Length1 > 0 && LoudnessMisshapen(config, loudness, observation.Length0) ==>
      r == Err(IndexError)
    ensures observation.Length1 > 0 && !MissingLoudness(config, loudness) && observation.Length0 == 0 ==>
      r == Err(IndexError)
    ensures (&& observation.Length1 > 0 && observation.Length0 > 0 && !MissingLoudness(config, loudness)
             && !LoudnessMisshapen(config, loudness, observation.Length0)) ==>
      && r.Ok?
      && IsDecoding(MaskedObservation(Matrix(observation), config, loudness, Space(phonemes, silence)),
                    Space(phonemes, silence), config.allowSkipSpace, ln, r.value)
  {
    var m, n := observation.Length0, observation.Length1;
    // initial[0] = 0. on an empty phoneme axis
    if n == 0 {
      return Err(IndexError);
    }
    var space := Space(phonemes, silence);
    var adjacency := BuildAdjacency(space, config.allowSkipSpace);
    if MissingLoudness(config, loudness) {
      // loudness.squeeze() on None
      return Err(AttributeError);
    }
    if LoudnessMisshapen(config, loudness, m) {
      // `[:, None]` on a 0-d tensor, or a mask of another shape than the observation
      return Err(IndexError);
    }
    var obs := MaskedCopy(observation, space, config, loudness);
    ghost var masked := MaskedObservation(Matrix(observation), config, loudness, space);
    var transition := NormaliseAndLog(adjacency, space, config.allowSkipSpace, ln);
    // posterior[0] = observation[0] + initial on an empty frame axis
    if m == 0 {
      return Err(IndexError);
    }
    var indices := BestPath(obs, transition, space, config.allowSkipSpace, ln);
    // torch.unique_consecutive(indices, return_counts=True)
    var rs := Runs.Runs(indices);
    r := Ok(Decoded(Runs.Values(rs), Runs.Counts(rs)));
    RunLengths(indices, rs, r.value);
  }

  /** The decoded pairs are the canonical run-length encoding of the path. */
  lemma RunLengths(path: seq<int>, rs: seq<Runs.Run<int>>, d: Decoded)
    requires rs == Runs.Runs(path) && d == Decoded(Runs.Values(rs), Runs.Counts(rs))
    ensures |d.indices| == |d.counts| && Pairs(d) == rs
    ensures Runs.Canonical(Pairs(d)) && Runs.Expand(Pairs(d)) == path
  {
    assert Pairs(d) == rs;
    Runs.RunsCanonical(path);
    Runs.ExpandRuns(path);
  }
}
