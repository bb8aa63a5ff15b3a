/** Duration interpolation of an alignment (pyfoal/interpolate.py). An
    alignment is its list of (phoneme, duration) and its total duration
    `alignment.duration()`, which is given. Each operation works on a
    deep copy, so here it returns a new list and the input, a value, is
    never changed. */
module Interpolate {
  import opened Common

  /** `phonemes`: every duration multiplied by `1 / ratio`. The division
      sits inside the comprehension, so a zero ratio divides by zero only
      when there is a phoneme to scale. */
  function Phonemes(phones: seq<Phone>, ratio: real): (r: Result<seq<Phone>>)
    ensures r.Err? <==> ratio == 0.0 && |phones| > 0
    ensures r.Err? ==> r.error == ZeroDivisionError
    ensures r.Ok? ==> |r.value| == |phones| && Symbols(r.value) == Symbols(phones)
    ensures r.Ok? ==> forall k :: 0 <= k < |phones| ==> r.value[k].duration * ratio == phones[k].duration
  {
    if ratio == 0.0 && |phones| > 0 then Err(ZeroDivisionError)
    else if ratio == 0.0 then Ok([])
    else Ok(seq(|phones|, k requires 0 <= k < |phones| => Phone(phones[k].symbol, (1.0 / ratio) * phones[k].duration)))
  }

  /** Uniform interpolation divides the total duration by the ratio. */
  lemma PhonemesTotal(phones: seq<Phone>, ratio: real)
    requires ratio != 0.0
    ensures Sum(Durations(Phonemes(phones, ratio).value)) * ratio == Sum(Durations(phones))
  {
    var r := Phonemes(phones, ratio).value;
    SumScale(Durations(phones), 1.0 / ratio, Durations(r));
  }

  /** `bool(table[phoneme])`: any non-empty cell reads as true; a phoneme
      missing from the table raises KeyError. */
  function Lookup(table: map<string, string>, phoneme: string): (r: Result<bool>)
    ensures r.Ok? <==> phoneme in table
    ensures r.Err? ==> r.error == KeyError
    ensures r.Ok? ==> (r.value <==> |table[phoneme]| > 0)
  {
    if phoneme in table then Ok(table[phoneme] != "") else Err(KeyError)
  }

  /** The flags of every phoneme, looked up in order (`[is_voiced(str(p))
      for p in phonemes]`); the first unknown phoneme raises. */
  function Flags(table: map<string, string>, phones: seq<Phone>): (r: Result<seq<bool>>)
    ensures r.Ok? <==> forall k :: 0 <= k < |phones| ==> phones[k].symbol in table
    ensures r.Err? ==> r.error == KeyError
    ensures r.Ok? ==> |r.value| == |phones|
    ensures r.Ok? ==> forall k :: 0 <= k < |phones| ==> r.value[k] == Lookup(table, phones[k].symbol).value
  {
    if |phones| == 0 then Ok([])
    else
      var head :- Lookup(table, phones[0].symbol);
      var rest :- Flags(table, phones[1..]);
      assert forall k :: 1 <= k < |phones| ==> phones[1..][k - 1] == phones[k];
      Ok([head] + rest)
  }

  /** The summed durations of the flagged (flag = true) or the unflagged
      (flag = false) phonemes. */
  function SumWhere(d: seq<real>, flags: seq<bool>, flag: bool): real
    requires |flags| == |d|
  {
    if |d| == 0 then 0.0
    else
      SumWhere(d[..|d| - 1], flags[..|d| - 1], flag)
        + (if flags[|d| - 1] == flag then d[|d| - 1] else 0.0)
  }

  /** Every duration is either flagged or not. */
  lemma {:induction false} SumSplit(d: seq<real>, flags: seq<bool>)
    requires |flags| == |d|
    ensures Sum(d) == SumWhere(d, flags, true) + SumWhere(d, flags, false)
  {
    if |d| > 0 {
      SumSplit(d[..|d| - 1], flags[..|d| - 1]);
    }
  }

  /** The new durations: flagged ones multiplied by `factor`, the others kept. */
  ghost predicate IsStretched(d: seq<real>, flags: seq<bool>, factor: real, r: seq<real>)
  {
    && |d| == |flags| == |r|
    && forall k :: 0 <= k < |d| ==> r[k] == Stretched(d[k], flags[k], factor)
  }

  function Stretched(duration: real, flag: bool, factor: real): real
  {
    if flag then factor * duration else duration
  }

  /** The flagged durations scaled by a factor sum to factor times their
      sum `flagged`, and the rest to their old sum. */
  lemma {:induction false} StretchedSums(d: seq<real>, flags: seq<bool>, factor: real, r: seq<real>, flagged: real)
    requires IsStretched(d, flags, factor, r) && flagged == SumWhere(d, flags, true)
    ensures SumWhere(r, flags, true) == factor * flagged
    ensures SumWhere(r, flags, false) == SumWhere(d, flags, false)
  {
    if |d| > 0 {
      var n := |d| - 1;
      var before := SumWhere(d[..n], flags[..n], true);
      StretchedPrefix(d, flags, factor, r, n);
      StretchedSums(d[..n], flags[..n], factor, r[..n], before);
      ScaleStep(factor, before, SumWhere(r[..n], flags[..n], true), d[n], r[n], flagged, SumWhere(r, flags, true), flags[n]);
    }
  }

  /** A prefix of a stretch is the stretch of the prefix. */
  lemma StretchedPrefix(d: seq<real>, flags: seq<bool>, factor: real, r: seq<real>, n: nat)
    requires IsStretched(d, flags, factor, r) && n <= |d|
    ensures IsStretched(d[..n], flags[..n], factor, r[..n])
  {
  }

  /** One more element of a scaled sum. */
  lemma ScaleStep(factor: real, before: real, after: real, x: real, y: real, flagged: real, total: real, flag: bool)
    requires after == factor * before
    requires flagged == before + (if flag then x else 0.0)
    requires total == after + (if flag then y else 0.0)
    requires flag ==> y == factor * x
    ensures total == factor * flagged
  {
    if flag {
      assert factor * flagged == factor * before + factor * x;
    }
  }

  /** `voiced_ratio`: the factor that turns the flagged duration into the
      target duration minus the unflagged duration. */
  function Factor(target: real, duration: real, flagged: real): real
    requires flagged != 0.0
  {
    (target - (duration - flagged)) / flagged
  }

  /** The factor scales the flagged duration to the target duration
      minus the unflagged duration. */
  lemma FactorScales(target: real, duration: real, flagged: real, factor: real)
    requires flagged != 0.0 && factor == Factor(target, duration, flagged)
    ensures factor * flagged == target - (duration - flagged)
  {
  }

  /** If the durations add up to the alignment's duration, stretching the
      flagged ones by such a factor makes them add up to the target. */
  lemma StretchTotal(d: seq<real>, flags: seq<bool>, duration: real, target: real, flagged: real, factor: real, r: seq<real>)
    requires |flags| == |d| && IsStretched(d, flags, factor, r)
    requires flagged == SumWhere(d, flags, true)
    requires factor * flagged == target - (duration - flagged)
    requires Sum(d) == duration
    ensures Sum(r) == target
  {
    SumSplit(d, flags);
    SumSplit(r, flags);
    StretchedSums(d, flags, factor, r, flagged);
  }

  /** The loop that builds the new durations. */
  method StretchDurations(d: seq<real>, flags: seq<bool>, factor: real) returns (durations: seq<real>)
    requires |flags| == |d|
    ensures IsStretched(d, flags, factor, durations)
  {
    durations := [];
    var i := 0;
    while i < |d|
      invariant 0 <= i <= |d|
      invariant |durations| == i
      invariant forall k :: 0 <= k < i ==> durations[k] == Stretched(d[k], flags[k], factor)
    {
      durations := durations + [Stretched(d[i], flags[i], factor)];
      i := i + 1;
    }
  }

  /** `voiced` and `vowels`: the same stretch, with the voicing table or
      the vowel table. An unknown phoneme raises KeyError; a zero flagged
      duration divides by zero. Otherwise the unflagged durations are kept,
      all flagged durations are scaled by one common factor, and when the
      durations add up to the alignment's duration the result adds up to
      `ratio` times it. */
  method Stretch(phones: seq<Phone>, duration: real, ratio: real, table: map<string, string>)
    returns (r: Result<seq<Phone>>)
    ensures Flags(table, phones).Err? ==> r == Err(KeyError)
    ensures Flags(table, phones).Ok? ==>
      var flags := Flags(table, phones).value;
      var flagged := SumWhere(Durations(phones), flags, true);
      && (flagged == 0.0 <==> r.Err?)
      && (r.Err? ==> r.error == ZeroDivisionError)
      && (r.Ok? ==>
            && Symbols(r.value) == Symbols(phones)
            && IsStretched(Durations(phones), flags, Factor(ratio * duration, duration, flagged), Durations(r.value))
            && (Sum(Durations(phones)) == duration ==> Sum(Durations(r.value)) == ratio * duration))
  {
    var voicing := Flags(table, phones);
    if voicing.Err? {
      return Err(KeyError);
    }
    var flags := voicing.value;
    var d := Durations(phones);
    var durationVoiced := SumWhere(d, flags, true);
    if durationVoiced == 0.0 {
      return Err(ZeroDivisionError);
    }
    var targetDuration := ratio * duration;
    var voicedRatio := Factor(targetDuration, duration, durationVoiced);
    FactorScales(targetDuration, duration, durationVoiced, voicedRatio);
    var durations := StretchDurations(d, flags, voicedRatio);
    var result := Relabel(phones, durations);
    if Sum(d) == duration {
      StretchTotal(d, flags, duration, targetDuration, durationVoiced, voicedRatio, durations);
    }
    r := Ok(result);
  }

  /** `alignment.update(durations=...)`: the same phonemes with new durations. */
  function Relabel(phones: seq<Phone>, durations: seq<real>): (r: seq<Phone>)
    requires |durations| == |phones|
    ensures Symbols(r) == Symbols(phones) && Durations(r) == durations
  {
    seq(|phones|, k requires 0 <= k < |phones| => Phone(phones[k].symbol, durations[k]))
  }
}
