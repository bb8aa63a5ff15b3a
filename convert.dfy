/** Conversions between phoneme symbols, vocabulary indices and timed
    alignments (pyfoal/convert.py). The vocabulary, which the source loads
    from a file and caches, is a parameter. */
module Convert {
  import opened Common
  import Runs

  /** The symbol-to-index dictionary built by enumerating the vocabulary:
      a later position overwrites an earlier one with the same symbol. */
  function IndexMap(vocab: seq<string>): (m: map<string, nat>)
    ensures forall p :: p in m <==> p in vocab
    ensures forall p :: p in m ==> m[p] < |vocab| && vocab[m[p]] == p
    ensures forall p, k :: p in m && m[p] < k < |vocab| ==> vocab[k] != p
  {
    if |vocab| == 0 then map[]
    else
      var prefix := vocab[..|vocab| - 1];
      assert forall k :: 0 <= k < |prefix| ==> prefix[k] == vocab[k];
      assert vocab == prefix + [vocab[|vocab| - 1]];
      IndexMap(prefix)[vocab[|vocab| - 1] := |vocab| - 1]
  }

  /** `phoneme_to_index`: KeyError for a symbol outside the vocabulary. */
  function PhonemeToIndex(vocab: seq<string>, phoneme: string): (r: Result<nat>)
    ensures r.Ok? <==> phoneme in vocab
    ensures r.Ok? ==> r.value < |vocab| && vocab[r.value] == phoneme
    ensures r.Ok? ==> forall k :: r.value < k < |vocab| ==> vocab[k] != phoneme
    ensures r.Err? ==> r.error == KeyError
  {
    var m := IndexMap(vocab);
    if phoneme in m then Ok(m[phoneme]) else Err(KeyError)
  }

  /** `index_to_phoneme`: KeyError for an index outside [0, len). */
  function IndexToPhoneme(vocab: seq<string>, index: int): (r: Result<string>)
    ensures r.Ok? <==> 0 <= index < |vocab|
    ensures r.Ok? ==> r.value in vocab
    ensures r.Err? ==> r.error == KeyError
  {
    if 0 <= index < |vocab| then Ok(vocab[index]) else Err(KeyError)
  }

  /** Every vocabulary symbol survives the round trip through its index. */
  lemma SymbolRoundTrip(vocab: seq<string>, phoneme: string)
    requires phoneme in vocab
    ensures PhonemeToIndex(vocab, phoneme).Ok?
    ensures IndexToPhoneme(vocab, PhonemeToIndex(vocab, phoneme).value) == Ok(phoneme)
  {
  }

  /** In a vocabulary without repeats every index survives the round trip. */
  lemma IndexRoundTrip(vocab: seq<string>, index: int)
    requires forall a, b :: 0 <= a < b < |vocab| ==> vocab[a] != vocab[b]
    requires 0 <= index < |vocab|
    ensures IndexToPhoneme(vocab, index).Ok?
    ensures PhonemeToIndex(vocab, IndexToPhoneme(vocab, index).value) == Ok(index)
  {
    var r := PhonemeToIndex(vocab, vocab[index]);
    assert r.Ok? && vocab[r.value] == vocab[index];
  }

  /** A repeated symbol maps to its last position, not to the earlier ones. */
  lemma LaterPositionWins(vocab: seq<string>, a: int, b: int)
    requires 0 <= a < b < |vocab| && vocab[a] == vocab[b]
    ensures PhonemeToIndex(vocab, vocab[a]).Ok?
    ensures PhonemeToIndex(vocab, vocab[a]).value >= b
  {
    var r := PhonemeToIndex(vocab, vocab[a]);
    assert r.Ok? && vocab[r.value] == vocab[a];
  }

  predicate InVocab(vocab: seq<string>, index: int)
  {
    0 <= index < |vocab|
  }

  /** Every index of s is in range exactly when every run value is. */
  lemma {:induction false} RunsInVocab(vocab: seq<string>, s: seq<int>)
    ensures AllInVocab(vocab, s) <==> RunsAllInVocab(vocab, Runs.Runs(s))
  {
    if |s| > 0 {
      var tail := s[1..];
      RunsInVocab(vocab, tail);
      var rest := Runs.Runs(tail);
      var rs := Runs.Runs(s);
      assert AllInVocab(vocab, s) <==> InVocab(vocab, s[0]) && AllInVocab(vocab, tail) by {
        assert forall i :: 1 <= i < |s| ==> s[i] == tail[i - 1];
      }
      if |rest| > 0 && rest[0].value == s[0] {
        assert rs == [Runs.Run(s[0], rest[0].count + 1)] + rest[1..];
        assert RunsAllInVocab(vocab, rs) <==> RunsAllInVocab(vocab, rest) by {
          assert forall k :: 1 <= k < |rs| ==> rs[k] == rest[k];
          assert rs[0].value == rest[0].value;
        }
        assert RunsAllInVocab(vocab, rest) ==> InVocab(vocab, s[0]);
      } else {
        assert rs == [Runs.Run(s[0], 1)] + rest;
        assert RunsAllInVocab(vocab, rs) <==> InVocab(vocab, s[0]) && RunsAllInVocab(vocab, rest) by {
          assert forall k :: 1 <= k < |rs| ==> rs[k] == rest[k - 1];
          assert forall k :: 0 <= k < |rest| ==> rest[k] == rs[k + 1];
        }
      }
    }
  }

  predicate AllInVocab(vocab: seq<string>, s: seq<int>)
  {
    forall i :: 0 <= i < |s| ==> InVocab(vocab, s[i])
  }

  predicate RunsAllInVocab(vocab: seq<string>, rs: seq<Runs.Run<int>>)
  {
    forall k :: 0 <= k < |rs| ==> InVocab(vocab, rs[k].value)
  }

  /** `indices_to_alignment` as written. Each `pypar.Phoneme` is built from
      one argument where `(phoneme, start, end)` are required, and the
      result is passed to `append` with two extra arguments; the single word
      is built as `pypar.Word(phonemes)` where `(word, phonemes)` are
      required. Every input therefore fails: an out-of-range first index
      with KeyError (its lookup is evaluated first) and anything else with
      a TypeError. */
  function IndicesToAlignmentAsWritten(vocab: seq<string>, indices: seq<int>, hopsize: real)
    : (r: Result<seq<seq<Segment>>>)
    ensures r.Err?
    ensures r.error == KeyError <==> |indices| > 0 && !InVocab(vocab, indices[0])
    ensures r.error != KeyError ==> r.error == TypeError
  {
    var groups := Runs.Runs(indices);
    if |groups| == 0 then Err(TypeError)
    else match IndexToPhoneme(vocab, groups[0].value)
      case Err(e) => Err(e)
      case Ok(_) => Err(TypeError)
  }

  /** Input on which the evidently intended conversion has everything it
      needs (every index names a symbol) but the code as written raises. */
  lemma AsWrittenRejectsValidFrames()
    ensures AllInVocab(["a"], [0, 0])
    ensures IndicesToAlignmentAsWritten(["a"], [0, 0], 0.01) == Err(TypeError)
  {
  }

  /** The time in seconds at the end of `frames` frames. */
  function Time(hopsize: real, frames: nat): (t: real)
  {
    if frames == 0 then 0.0 else Time(hopsize, frames - 1) + hopsize
  }

  /** The time of a frame count is the count times the hop size. */
  lemma {:induction false} TimeIsProduct(hopsize: real, frames: nat)
    ensures Time(hopsize, frames) == hopsize * frames as real
  {
    if frames > 0 {
      TimeIsProduct(hopsize, frames - 1);
    }
  }

  lemma {:induction false} TimeAdd(hopsize: real, a: nat, b: nat)
    ensures Time(hopsize, a + b) == Time(hopsize, a) + Time(hopsize, b)
  {
    if b > 0 {
      TimeAdd(hopsize, a, b - 1);
    }
  }

  /** `segments` are the runs of frame indices as timed phonemes: one per
      run, named from the vocabulary, starting after all earlier runs'
      frames and ending after its own, at `hopsize` seconds per frame. */
  ghost predicate IsTimedRuns(vocab: seq<string>, rs: seq<Runs.Run<int>>, hopsize: real,
                              segments: seq<Segment>)
  {
    && |segments| == |rs|
    && forall k :: 0 <= k < |rs| ==> TimedRun(vocab, rs, hopsize, segments[k], k)
  }

  /** Segment `segment` is run k of `rs` in seconds. */
  ghost predicate TimedRun(vocab: seq<string>, rs: seq<Runs.Run<int>>, hopsize: real,
                           segment: Segment, k: int)
    requires 0 <= k < |rs|
  {
    && InVocab(vocab, rs[k].value)
    && segment.symbol == vocab[rs[k].value]
    && segment.start == Time(hopsize, Runs.TotalCount(rs[..k]))
    && segment.end == Time(hopsize, Runs.TotalCount(rs[..k + 1]))
  }

  /** `indices_to_alignment` with the phonemes built as intended, each as
      `(symbol, start, end)`: the phonemes of the single word. */
  method IndicesToAlignment(vocab: seq<string>, indices: seq<int>, hopsize: real)
    returns (r: Result<seq<Segment>>)
    ensures r.Ok? <==> AllInVocab(vocab, indices)
    ensures r.Err? ==> r.error == KeyError
    ensures r.Ok? ==> IsTimedRuns(vocab, Runs.Runs(indices), hopsize, r.value)
  {
    RunsInVocab(vocab, indices);
    var groups := Runs.Runs(indices);
    var start := 0.0;
    var phonemes: seq<Segment> := [];
    var i := 0;
    while i < |groups|
      invariant 0 <= i <= |groups| && |phonemes| == i
      invariant start == Time(hopsize, Runs.TotalCount(groups[..i]))
      invariant forall k :: 0 <= k < i ==> TimedRun(vocab, groups, hopsize, phonemes[k], k)
    {
      var symbol := IndexToPhoneme(vocab, groups[i].value);
      if symbol.Err? {
        assert !RunsAllInVocab(vocab, groups);
        return Err(symbol.error);
      }
      var duration := Time(hopsize, groups[i].count);
      CountAfter(groups, i);
      TimeAdd(hopsize, Runs.TotalCount(groups[..i]), groups[i].count);
      var segment := Segment(symbol.value, start, start + duration);
      assert TimedRun(vocab, groups, hopsize, segment, i);
      phonemes := phonemes + [segment];
      start := start + duration;
      i := i + 1;
    }
    assert RunsAllInVocab(vocab, groups) by {
      forall k | 0 <= k < |groups| ensures InVocab(vocab, groups[k].value) {
        assert TimedRun(vocab, groups, hopsize, phonemes[k], k);
      }
    }
    return Ok(phonemes);
  }

  /** The frames up to and including run k are those before it plus its own. */
  lemma CountAfter(rs: seq<Runs.Run<int>>, k: int)
    requires 0 <= k < |rs|
    ensures Runs.TotalCount(rs[..k + 1]) == Runs.TotalCount(rs[..k]) + rs[k].count
  {
    Runs.TotalCountAt(rs[..k + 1], k);
    assert rs[..k + 1][..k] == rs[..k];
    assert rs[..k + 1][k..] == [rs[k]];
  }

  /** The timed runs tile the frames: the first starts at 0, each starts
      where the previous ends, each lasts hopsize × count, and the last
      ends at hopsize × the number of frames. */
  lemma TimedRunsTile(vocab: seq<string>, indices: seq<int>, hopsize: real, segments: seq<Segment>)
    requires IsTimedRuns(vocab, Runs.Runs(indices), hopsize, segments)
    ensures |indices| > 0 ==> segments[0].start == 0.0
    ensures |indices| > 0 ==> segments[|segments| - 1].end == Time(hopsize, |indices|)
    ensures forall k :: 0 < k < |segments| ==> segments[k].start == segments[k - 1].end
    ensures forall k :: 0 <= k < |segments| ==>
              segments[k].end - segments[k].start == Time(hopsize, Runs.Runs(indices)[k].count)
  {
    var rs := Runs.Runs(indices);
    forall k | 0 <= k < |segments|
      ensures segments[k].end - segments[k].start == Time(hopsize, rs[k].count)
    {
      CountAfter(rs, k);
      TimeAdd(hopsize, Runs.TotalCount(rs[..k]), rs[k].count);
    }
    if |indices| > 0 {
      assert rs[..|rs|] == rs;
      Runs.RunsTotal(indices);
    }
  }

  /** The grouping behind the segments: counts at least one, no equal
      neighbours, and expanding the groups gives the frames back. */
  lemma GroupingLaws(indices: seq<int>)
    ensures Runs.Canonical(Runs.Runs(indices))
    ensures Runs.Expand(Runs.Runs(indices)) == indices
  {
    Runs.RunsCanonical(indices);
    Runs.ExpandRuns(indices);
  }
}
