/** Post-processing of the downloaded corpora (pyfoal/data/download/core.py):
    turning an arctic `.lab` file into a one-phoneme-per-word alignment,
    numbering the arctic examples that have text, numbering libritts
    speakers and utterances, and the dispatch over dataset names. Files,
    audio and the network are left out: a lab file is its list of lines
    (each with its trailing newline), `float` is the parameter `parse`,
    and the audio duration in seconds is given. */
module Download {
  import opened Common
  import Runs

  function Min(a: nat, b: nat): nat
  {
    if a <= b then a else b
  }

  // ----- str.split() -------------------------------------------------------

  /** The ASCII characters `str.split()` treats as whitespace: space, tab,
      line feed, vertical tab, form feed, carriage return and the four
      separator characters 0x1c-0x1f. */
  predicate IsSpace(c: char)
  {
    c == ' ' || (9 <= c as int <= 13) || (28 <= c as int <= 31)
  }

  predicate SpaceFree(w: string)
  {
    forall k :: 0 <= k < |w| ==> !IsSpace(w[k])
  }

  /** The length of the longest whitespace-free prefix. */
  function TokenLength(s: string): (n: nat)
    ensures n <= |s| && SpaceFree(s[..n])
    ensures n < |s| ==> IsSpace(s[n])
    ensures |s| > 0 && !IsSpace(s[0]) ==> n > 0
  {
    if |s| == 0 || IsSpace(s[0]) then 0
    else
      var m := TokenLength(s[1..]);
      assert s[..1 + m] == [s[0]] + s[1..][..m];
      1 + m
  }

  /** `s.split()`: the maximal whitespace-free pieces, in order. */
  function Words(s: string): (r: seq<string>)
    ensures forall k :: 0 <= k < |r| ==> |r[k]| > 0 && SpaceFree(r[k])
    decreases |s|
  {
    if |s| == 0 then []
    else if IsSpace(s[0]) then Words(s[1..])
    else
      var n := TokenLength(s);
      [s[..n]] + Words(s[n..])
  }

  /** `' '.join(words)`. */
  function Join(words: seq<string>): string
  {
    if |words| == 0 then ""
    else if |words| == 1 then words[0]
    else words[0] + " " + Join(words[1..])
  }

  lemma {:induction false} TokenLengthOf(w: string, t: string)
    requires SpaceFree(w) && (|t| > 0 ==> IsSpace(t[0]))
    ensures TokenLength(w + t) == |w|
  {
    if |w| > 0 {
      assert (w + t)[1..] == w[1..] + t;
      TokenLengthOf(w[1..], t);
    } else {
      assert w + t == t;
    }
  }

  /** A word followed by nothing or by whitespace is split off whole. */
  lemma WordsToken(w: string, t: string)
    requires |w| > 0 && SpaceFree(w) && (|t| > 0 ==> IsSpace(t[0]))
    ensures Words(w + t) == [w] + Words(t)
  {
    TokenLengthOf(w, t);
    assert (w + t)[..|w|] == w && (w + t)[|w|..] == t;
  }

  /** Splitting undoes joining with single spaces, for non-empty words
      without whitespace. */
  lemma {:induction false} WordsJoin(words: seq<string>)
    requires forall k :: 0 <= k < |words| ==> |words[k]| > 0 && SpaceFree(words[k])
    ensures Words(Join(words)) == words
  {
    if |words| == 1 {
      WordsToken(words[0], "");
      assert words[0] + "" == words[0];
    } else if |words| > 1 {
      var rest := Join(words[1..]);
      var t := " " + rest;
      JoinCons(words);
      WordsJoin(words[1..]);
      WordsSkip(' ', rest);
      WordsToken(words[0], t);
      assert words == [words[0]] + words[1..];
    }
  }

  /** Joining puts the first word, a space and the rest joined. */
  lemma JoinCons(words: seq<string>)
    requires |words| > 1
    ensures Join(words) == words[0] + (" " + Join(words[1..]))
  {
  }

  /** Leading whitespace is skipped. */
  lemma WordsSkip(c: char, t: string)
    requires IsSpace(c)
    ensures Words([c] + t) == Words(t)
  {
    assert ([c] + t)[1..] == t;
  }

  // ----- the lab file ------------------------------------------------------

  /** `lines.index('#\n')`; None where Python raises ValueError. */
  function HeaderEnd(lines: seq<string>): (r: Option<nat>)
    ensures r.Some? ==> r.value < |lines| && lines[r.value] == "#\n"
    ensures r.Some? ==> forall k :: 0 <= k < r.value ==> lines[k] != "#\n"
    ensures r.None? ==> forall k :: 0 <= k < |lines| ==> lines[k] != "#\n"
  {
    if |lines| == 0 then None
    else if lines[0] == "#\n" then Some(0)
    else
      match HeaderEnd(lines[1..])
      case None => None
      case Some(i) => Some(i + 1)
  }

  /** The lines longer than four characters, in order. */
  function Long(lines: seq<string>): (r: seq<string>)
    ensures |r| <= |lines|
    ensures forall l :: l in r <==> l in lines && |l| > 4
  {
    if |lines| == 0 then []
    else
      var rest := Long(lines[..|lines| - 1]);
      assert lines == lines[..|lines| - 1] + [lines[|lines| - 1]];
      if |lines[|lines| - 1]| > 4 then rest + [lines[|lines| - 1]] else rest
  }

  /** `[line.split() for line in lines if len(line) > 4]`. */
  function Rows(lines: seq<string>): (rows: seq<seq<string>>)
    ensures |rows| == |Long(lines)|
    ensures forall k :: 0 <= k < |rows| ==> rows[k] == Words(Long(lines)[k])
  {
    var long := Long(lines);
    seq(|long|, k requires 0 <= k < |long| => Words(long[k]))
  }

  /** The number of fields of the shortest row, 0 for no rows: the number
      of tuples `zip(*rows)` yields. */
  function Shortest(rows: seq<seq<string>>): (n: nat)
    ensures forall k :: 0 <= k < |rows| ==> n <= |rows[k]|
    ensures |rows| > 0 ==> exists k :: 0 <= k < |rows| && n == |rows[k]|
    ensures |rows| == 0 ==> n == 0
  {
    if |rows| == 0 then 0
    else if |rows| == 1 then |rows[0]|
    else
      var rest := Shortest(rows[1..]);
      assert forall k :: 1 <= k < |rows| ==> rows[k] == rows[1..][k - 1];
      if |rows[0]| <= rest then |rows[0]| else rest
  }

  /** The rows kept from a lab file: those after the first `#` line. */
  function LabRows(lines: seq<string>): (rows: seq<seq<string>>)
    requires HeaderEnd(lines).Some?
  {
    Rows(lines[HeaderEnd(lines).value + 1..])
  }

  /** `endtimes, _, phonemes = zip(*lines)`: the first and third field of
      every kept row. A file without a `#` line, without kept rows, or
      whose shortest kept row does not have exactly three fields raises
      ValueError. */
  function Lab(lines: seq<string>): (r: Result<(seq<string>, seq<string>)>)
    ensures r.Err? ==> r.error == ValueError
    ensures r.Ok? <==> HeaderEnd(lines).Some? && |LabRows(lines)| > 0 && Shortest(LabRows(lines)) == 3
    ensures r.Ok? ==>
      var rows := LabRows(lines);
      && |r.value.0| == |rows| && |r.value.1| == |rows|
      && forall k :: 0 <= k < |rows| ==> r.value.0[k] == rows[k][0] && r.value.1[k] == rows[k][2]
  {
    if HeaderEnd(lines).None? then Err(ValueError)
    else
      var rows := LabRows(lines);
      if |rows| == 0 || Shortest(rows) != 3 then Err(ValueError)
      else
        Ok((seq(|rows|, k requires 0 <= k < |rows| => rows[k][0]),
            seq(|rows|, k requires 0 <= k < |rows| => rows[k][2])))
  }

  // ----- tokens and times --------------------------------------------------

  /** The out-of-vocabulary token. */
  const Unknown: string := "<unk>"

  /** `'pau'` becomes `'sp'`, then anything outside the vocabulary becomes
      `'<unk>'`. */
  function MapToken(vocabulary: seq<string>, phoneme: string): (r: string)
    ensures r in vocabulary || r == Unknown
    ensures phoneme in vocabulary && phoneme != "pau" ==> r == phoneme
    ensures phoneme !in vocabulary && phoneme != "pau" ==> r == Unknown
    ensures phoneme == "pau" ==> r == (if "sp" in vocabulary then "sp" else Unknown)
  {
    var silence := if phoneme == "pau" then "sp" else phoneme;
    if silence in vocabulary then silence else Unknown
  }

  /** Mapping a mapped token changes nothing. */
  lemma MapTokenIdempotent(vocabulary: seq<string>, phoneme: string)
    ensures MapToken(vocabulary, MapToken(vocabulary, phoneme)) == MapToken(vocabulary, phoneme)
  {
    var r := MapToken(vocabulary, phoneme);
    assert r != "pau";
  }

  function MapTokens(vocabulary: seq<string>, phonemes: seq<string>): (r: seq<string>)
    ensures |r| == |phonemes|
    ensures forall k :: 0 <= k < |r| ==> r[k] == MapToken(vocabulary, phonemes[k])
  {
    seq(|phonemes|, k requires 0 <= k < |phonemes| => MapToken(vocabulary, phonemes[k]))
  }

  /** `[float(endtime) for endtime in endtimes]`; a field that is not a
      number raises ValueError. */
  function ParseTimes(parse: string -> Option<real>, fields: seq<string>): (r: Result<seq<real>>)
    ensures r.Ok? <==> forall k :: 0 <= k < |fields| ==> parse(fields[k]).Some?
    ensures r.Err? ==> r.error == ValueError
    ensures r.Ok? ==> |r.value| == |fields|
    ensures r.Ok? ==> forall k :: 0 <= k < |fields| ==> r.value[k] == parse(fields[k]).value
  {
    if |fields| == 0 then Ok([])
    else if parse(fields[0]).None? then Err(ValueError)
    else
      var rest :- ParseTimes(parse, fields[1..]);
      assert forall k :: 1 <= k < |fields| ==> fields[1..][k - 1] == fields[k];
      Ok([parse(fields[0]).value] + rest)
  }

  /** `endtimes[-1] = duration`. */
  function SetLast(endtimes: seq<real>, duration: real): (r: Result<seq<real>>)
    ensures r.Ok? <==> |endtimes| > 0
    ensures r.Err? ==> r.error == IndexError
    ensures r.Ok? ==> |r.value| == |endtimes| && r.value[|endtimes| - 1] == duration
    ensures r.Ok? ==> r.value[..|endtimes| - 1] == endtimes[..|endtimes| - 1]
  {
    if |endtimes| == 0 then Err(IndexError) else Ok(endtimes[|endtimes| - 1 := duration])
  }

  // ----- merging repeated phonemes -----------------------------------------

  /** The phonemes with every block of equal neighbours reduced to one. */
  function Collapse(phonemes: seq<string>): seq<string>
  {
    Runs.Values(Runs.Runs(phonemes))
  }

  /** One step of a collapse from the front. */
  lemma CollapseStep(s: seq<string>)
    requires |s| >= 1
    ensures |s| == 1 ==> Collapse(s) == s
    ensures |s| >= 2 && s[0] == s[1] ==> Collapse(s) == Collapse(s[1..])
    ensures |s| >= 2 && s[0] != s[1] ==> Collapse(s) == [s[0]] + Collapse(s[1..])
  {
    var rest := Runs.Runs(s[1..]);
    if |s| >= 2 {
      assert s[1..][0] == s[1];
      assert Runs.Values(rest)[1..] == Runs.Values(rest[1..]);
    }
  }

  /** No two neighbouring phonemes are equal. */
  ghost predicate NoRepeats(s: seq<string>)
  {
    forall k :: 0 <= k < |s| - 1 ==> s[k] != s[k + 1]
  }

  lemma CollapseNoRepeats(s: seq<string>)
    ensures NoRepeats(Collapse(s))
  {
    Runs.RunsCanonical(s);
  }

  /** Every phoneme left by a collapse was in the input. */
  lemma {:induction false} CollapseFrom(s: seq<string>)
    ensures forall x :: x in Collapse(s) ==> x in s
  {
    if |s| >= 1 {
      CollapseStep(s);
      if |s| >= 2 {
        CollapseFrom(s[1..]);
      }
    }
  }

  /** The end time of every block of equal neighbours: that of its last
      phoneme. */
  function RunEnds(phonemes: seq<string>, endtimes: seq<real>): (r: seq<real>)
    requires |phonemes| == |endtimes|
    ensures |r| == |Collapse(phonemes)|
    ensures |phonemes| > 0 ==> |r| > 0 && r[|r| - 1] == endtimes[|endtimes| - 1]
  {
    if |phonemes| <= 1 then
      (if |phonemes| == 1 then CollapseStep(phonemes); endtimes else endtimes)
    else
      CollapseStep(phonemes);
      if phonemes[0] == phonemes[1] then RunEnds(phonemes[1..], endtimes[1..])
      else [endtimes[0]] + RunEnds(phonemes[1..], endtimes[1..])
  }

  /** Merging leaves a list without repeats unchanged. */
  lemma {:induction false} MergeNothing(phonemes: seq<string>, endtimes: seq<real>)
    requires |phonemes| == |endtimes| && NoRepeats(phonemes)
    ensures Collapse(phonemes) == phonemes && RunEnds(phonemes, endtimes) == endtimes
  {
    if |phonemes| >= 1 {
      CollapseStep(phonemes);
      if |phonemes| >= 2 {
        MergeNothing(phonemes[1..], endtimes[1..]);
        assert phonemes == [phonemes[0]] + phonemes[1..];
        assert endtimes == [endtimes[0]] + endtimes[1..];
      }
    }
  }

  /** The duplicate loop as written, from position j: equal neighbours are
      merged by copying the later end time and deleting from `phonemes`
      only. */
  function MergeFrom(j: nat, phonemes: seq<string>, endtimes: seq<real>): (r: (seq<string>, seq<real>))
    requires j <= |phonemes| <= |endtimes|
    ensures |r.1| == |endtimes|
    decreases |phonemes| - j
  {
    if j + 1 < |phonemes| then
      if phonemes[j] == phonemes[j + 1] then
        MergeFrom(j, phonemes[..j] + phonemes[j + 1..], endtimes[j := endtimes[j + 1]])
      else
        MergeFrom(j + 1, phonemes, endtimes)
    else
      (phonemes, endtimes)
  }

  /** As written, the phonemes still collapse correctly from position j. */
  lemma {:induction false} MergeFromCollapse(j: nat, phonemes: seq<string>, endtimes: seq<real>)
    requires j <= |phonemes| <= |endtimes|
    ensures MergeFrom(j, phonemes, endtimes).0 == phonemes[..j] + Collapse(phonemes[j..])
    decreases |phonemes| - j
  {
    var p := phonemes;
    if j + 1 < |p| {
      CollapseStep(p[j..]);
      assert p[j..][1..] == p[j + 1..];
      if p[j] == p[j + 1] {
        var q := p[..j] + p[j + 1..];
        assert q[..j] == p[..j] && q[j..] == p[j + 1..];
        MergeFromCollapse(j, q, endtimes[j := endtimes[j + 1]]);
      } else {
        MergeFromCollapse(j + 1, p, endtimes);
        assert p[..j + 1] == p[..j] + [p[j]];
      }
    } else {
      if j < |p| {
        CollapseStep(p[j..]);
      }
      assert p == p[..j] + p[j..];
    }
  }

  /** The loop at pyfoal/data/download/core.py:197-203 as written. */
  method MergeDuplicatesAsWritten(phonemes: seq<string>, endtimes: seq<real>)
    returns (p: seq<string>, e: seq<real>)
    requires |phonemes| == |endtimes|
    ensures (p, e) == MergeFrom(0, phonemes, endtimes)
    ensures p == Collapse(phonemes) && |e| == |endtimes|
  {
    p, e := phonemes, endtimes;
    var j := 0;
    while j + 1 < |p|
      invariant j <= |p| <= |e|
      invariant MergeFrom(j, p, e) == MergeFrom(0, phonemes, endtimes)
      decreases |p| - j
    {
      if p[j] == p[j + 1] {
        e := e[j := e[j + 1]];
        p := p[..j] + p[j + 1..];
      } else {
        j := j + 1;
      }
    }
    MergeFromCollapse(0, phonemes, endtimes);
  }

  /** As written, `[a, a, b]` ending at `[1, 2, 3]` leaves `[a, b]` with
      end times `[2, 2, 3]`: `b` is paired with 2 instead of its own end 3,
      which the merge of both lists gives. */
  lemma AsWrittenShiftsEndtimes()
    ensures MergeFrom(0, ["a", "a", "b"], [1.0, 2.0, 3.0]) == (["a", "b"], [2.0, 2.0, 3.0])
    ensures RunEnds(["a", "a", "b"], [1.0, 2.0, 3.0]) == [2.0, 3.0]
  {
    var p: seq<string> := ["a", "a", "b"];
    var e: seq<real> := [1.0, 2.0, 3.0];
    assert p[..0] + p[1..] == ["a", "b"];
    assert e[0 := e[1]] == [2.0, 2.0, 3.0];
    var q: seq<string> := ["a", "b"];
    assert MergeFrom(0, q, [2.0, 2.0, 3.0]) == MergeFrom(1, q, [2.0, 2.0, 3.0]);
    assert p[1..] == ["a", "b"] && e[1..] == [2.0, 3.0];
    assert q[1..] == ["b"];
    assert RunEnds(q, [2.0, 3.0]) == [2.0] + RunEnds(["b"], [3.0]);
  }

  /** The loop state of the corrected merge at position j: the prefix is
      final and the rest still collapses to the remaining result. */
  ghost predicate MergedUpTo(j: nat, p: seq<string>, e: seq<real>, phonemes: seq<string>, endtimes: seq<real>)
    requires |phonemes| == |endtimes|
  {
    && j <= |p| == |e|
    && p[..j] + Collapse(p[j..]) == Collapse(phonemes)
    && e[..j] + RunEnds(p[j..], e[j..]) == RunEnds(phonemes, endtimes)
  }

  /** Deleting the first of two equal neighbours, with its end time. */
  lemma MergeDelete(j: nat, p: seq<string>, e: seq<real>, phonemes: seq<string>, endtimes: seq<real>)
    requires |phonemes| == |endtimes| && MergedUpTo(j, p, e, phonemes, endtimes)
    requires j + 1 < |p| && p[j] == p[j + 1]
    ensures MergedUpTo(j, p[..j] + p[j + 1..], e[j := e[j + 1]][..j + 1] + e[j := e[j + 1]][j + 2..],
                       phonemes, endtimes)
  {
    CollapseStep(p[j..]);
    assert p[j..][1..] == p[j + 1..] && e[j..][1..] == e[j + 1..];
    var q := p[..j] + p[j + 1..];
    var f := e[j := e[j + 1]][..j + 1] + e[j := e[j + 1]][j + 2..];
    assert q[..j] == p[..j] && q[j..] == p[j + 1..];
    assert f[..j] == e[..j] && f[j..] == e[j + 1..];
  }

  /** Moving past two different neighbours. */
  lemma MergeAdvance(j: nat, p: seq<string>, e: seq<real>, phonemes: seq<string>, endtimes: seq<real>)
    requires |phonemes| == |endtimes| && MergedUpTo(j, p, e, phonemes, endtimes)
    requires j + 1 < |p| && p[j] != p[j + 1]
    ensures MergedUpTo(j + 1, p, e, phonemes, endtimes)
  {
    CollapseAdvance(j, p);
    EndsAdvance(j, p, e);
  }

  lemma CollapseAdvance(j: nat, p: seq<string>)
    requires j + 1 < |p| && p[j] != p[j + 1]
    ensures p[..j + 1] + Collapse(p[j + 1..]) == p[..j] + Collapse(p[j..])
  {
    CollapseStep(p[j..]);
    assert p[j..][1..] == p[j + 1..];
    assert p[..j + 1] == p[..j] + [p[j]];
  }

  lemma EndsAdvance(j: nat, p: seq<string>, e: seq<real>)
    requires j + 1 < |p| == |e| && p[j] != p[j + 1]
    ensures e[..j + 1] + RunEnds(p[j + 1..], e[j + 1..]) == e[..j] + RunEnds(p[j..], e[j..])
  {
    var q, f := p[j..], e[j..];
    assert q[1..] == p[j + 1..] && f[1..] == e[j + 1..];
    assert RunEnds(q, f) == [f[0]] + RunEnds(q[1..], f[1..]) by {
      assert q[0] != q[1];
    }
    ShiftLast(e, j, RunEnds(p[j + 1..], e[j + 1..]));
  }

  /** At most one phoneme left: the merge is complete. */
  lemma MergeDone(j: nat, p: seq<string>, e: seq<real>, phonemes: seq<string>, endtimes: seq<real>)
    requires |phonemes| == |endtimes| && MergedUpTo(j, p, e, phonemes, endtimes)
    requires j + 1 >= |p|
    ensures p == Collapse(phonemes) && e == RunEnds(phonemes, endtimes)
  {
    if j < |p| {
      CollapseStep(p[j..]);
    }
    assert p == p[..j] + p[j..] && e == e[..j] + e[j..];
  }

  /** The duplicate loop deleting from both lists: each remaining phoneme
      keeps the end time of the last phoneme of its block. */
  method MergeDuplicates(phonemes: seq<string>, endtimes: seq<real>)
    returns (p: seq<string>, e: seq<real>)
    requires |phonemes| == |endtimes|
    ensures p == Collapse(phonemes) && e == RunEnds(phonemes, endtimes)
  {
    p, e := phonemes, endtimes;
    var j := 0;
    while j + 1 < |p|
      invariant MergedUpTo(j, p, e, phonemes, endtimes)
      decreases |p| - j
    {
      if p[j] == p[j + 1] {
        MergeDelete(j, p, e, phonemes, endtimes);
        e := e[j := e[j + 1]];
        e := e[..j + 1] + e[j + 2..];
        p := p[..j] + p[j + 1..];
      } else {
        MergeAdvance(j, p, e, phonemes, endtimes);
        j := j + 1;
      }
    }
    MergeDone(j, p, e, phonemes, endtimes);
  }

  // ----- the alignment -----------------------------------------------------

  /** Consecutive phonemes tile time from 0: each starts where the previous
      one ends. */
  ghost predicate Tiles(alignment: seq<Segment>)
  {
    && (|alignment| > 0 ==> alignment[0].start == 0.0)
    && forall k :: 1 <= k < |alignment| ==> alignment[k].start == alignment[k - 1].end
  }

  /** The alignment as written: every phoneme runs from 0 to its end time. */
  ghost predicate StartsAtZero(endtimes: seq<real>, phonemes: seq<string>, alignment: seq<Segment>)
  {
    && |alignment| == Min(|endtimes|, |phonemes|)
    && forall k :: 0 <= k < |alignment| ==> alignment[k] == Segment(phonemes[k], 0.0, endtimes[k])
  }

  /** The loop at pyfoal/data/download/core.py:207-212 as written:
      `end = start` rebinds the loop variable, so `start` stays 0. */
  method AlignmentAsWritten(endtimes: seq<real>, phonemes: seq<string>) returns (alignment: seq<Segment>)
    ensures StartsAtZero(endtimes, phonemes, alignment)
  {
    var start := 0.0;
    alignment := [];
    var n := Min(|endtimes|, |phonemes|);
    for i := 0 to n
      invariant |alignment| == i && start == 0.0
      invariant forall k :: 0 <= k < i ==> alignment[k] == Segment(phonemes[k], 0.0, endtimes[k])
    {
      var end := endtimes[i];
      alignment := alignment + [Segment(phonemes[i], start, end)];
      end := start;
    }
  }

  /** As written, two phonemes overlap whenever the first ends after 0. */
  lemma AsWrittenOverlaps(endtimes: seq<real>, phonemes: seq<string>, alignment: seq<Segment>)
    requires StartsAtZero(endtimes, phonemes, alignment)
    requires |endtimes| >= 2 && |phonemes| >= 2 && endtimes[0] != 0.0
    ensures !Tiles(alignment)
  {
    assert alignment[1].start == 0.0 && alignment[0].end == endtimes[0];
  }

  /** The loop advancing `start` to each end time. */
  method Alignment(endtimes: seq<real>, phonemes: seq<string>) returns (alignment: seq<Segment>)
    ensures |alignment| == Min(|endtimes|, |phonemes|)
    ensures forall k :: 0 <= k < |alignment| ==>
      alignment[k].symbol == phonemes[k] && alignment[k].end == endtimes[k]
    ensures Tiles(alignment)
  {
    var start := 0.0;
    alignment := [];
    var n := Min(|endtimes|, |phonemes|);
    for i := 0 to n
      invariant |alignment| == i
      invariant forall k :: 0 <= k < i ==>
        alignment[k].symbol == phonemes[k] && alignment[k].end == endtimes[k]
      invariant Tiles(alignment)
      invariant start == if i == 0 then 0.0 else endtimes[i - 1]
    {
      var end := endtimes[i];
      alignment := alignment + [Segment(phonemes[i], start, end)];
      start := end;
    }
  }

  function SegmentSymbols(alignment: seq<Segment>): (s: seq<string>)
    ensures |s| == |alignment| && forall k :: 0 <= k < |s| ==> s[k] == alignment[k].symbol
  {
    seq(|alignment|, k requires 0 <= k < |alignment| => alignment[k].symbol)
  }

  /** What a converted lab file promises: phonemes tile the audio from 0 to
      its duration, no phoneme follows an equal one, and every phoneme is
      in the vocabulary or is `'<unk>'`. */
  ghost predicate LabLaws(vocabulary: seq<string>, duration: real, alignment: seq<Segment>)
  {
    && |alignment| > 0
    && Tiles(alignment)
    && alignment[|alignment| - 1].end == duration
    && NoRepeats(SegmentSymbols(alignment))
    && forall k :: 0 <= k < |alignment| ==> alignment[k].symbol in vocabulary || alignment[k].symbol == Unknown
  }

  /** The end-time fields of a lab file that parses. */
  function LabTimes(lines: seq<string>, parse: string -> Option<real>): Result<seq<real>>
  {
    var lab :- Lab(lines);
    ParseTimes(parse, lab.0)
  }

  /** One arctic lab file to its alignment (with both loops corrected). */
  method LabAlignment(lines: seq<string>, vocabulary: seq<string>, parse: string -> Option<real>,
                      duration: real)
    returns (r: Result<seq<Segment>>)
    ensures r.Err? <==> LabTimes(lines, parse).Err?
    ensures r.Err? ==> r.error == ValueError
    ensures r.Ok? ==> SegmentSymbols(r.value) == Collapse(MapTokens(vocabulary, Lab(lines).value.1))
    ensures r.Ok? ==> LabLaws(vocabulary, duration, r.value)
  {
    var lab := Lab(lines);
    if lab.Err? {
      return Err(lab.error);
    }
    var phonemes := MapTokens(vocabulary, lab.value.1);
    r := TimedAlignment(vocabulary, phonemes, lab.value.0, parse, duration);
  }

  /** The steps after the tokens are mapped: parse the end times, set the
      last to the audio duration, merge repeats and time the phonemes. */
  method TimedAlignment(vocabulary: seq<string>, phonemes: seq<string>, fields: seq<string>,
                        parse: string -> Option<real>, duration: real)
    returns (r: Result<seq<Segment>>)
    requires |phonemes| == |fields| > 0
    requires forall k :: 0 <= k < |phonemes| ==> phonemes[k] in vocabulary || phonemes[k] == Unknown
    ensures r.Err? <==> ParseTimes(parse, fields).Err?
    ensures r.Err? ==> r.error == ValueError
    ensures r.Ok? ==> SegmentSymbols(r.value) == Collapse(phonemes)
    ensures r.Ok? ==> LabLaws(vocabulary, duration, r.value)
  {
    var parsed := ParseTimes(parse, fields);
    if parsed.Err? {
      return Err(parsed.error);
    }
    var endtimes := SetLast(parsed.value, duration).value;
    var merged, ends := MergeDuplicates(phonemes, endtimes);
    var alignment := Alignment(ends, merged);
    MergedLaws(vocabulary, phonemes, endtimes, duration, alignment);
    r := Ok(alignment);
  }

  /** A non-empty list of mapped phonemes whose last end time is the
      duration, merged and timed, obeys the lab-file laws. */
  lemma MergedLaws(vocabulary: seq<string>, phonemes: seq<string>, endtimes: seq<real>, duration: real,
                   alignment: seq<Segment>)
    requires |phonemes| == |endtimes| > 0 && endtimes[|endtimes| - 1] == duration
    requires forall k :: 0 <= k < |phonemes| ==> phonemes[k] in vocabulary || phonemes[k] == Unknown
    requires |alignment| == |Collapse(phonemes)| && Tiles(alignment)
    requires forall k :: 0 <= k < |alignment| ==>
      alignment[k].symbol == Collapse(phonemes)[k] && alignment[k].end == RunEnds(phonemes, endtimes)[k]
    ensures SegmentSymbols(alignment) == Collapse(phonemes)
    ensures LabLaws(vocabulary, duration, alignment)
  {
    var merged := Collapse(phonemes);
    CollapseNoRepeats(phonemes);
    CollapseFrom(phonemes);
    assert SegmentSymbols(alignment) == merged;
    forall k | 0 <= k < |alignment|
      ensures alignment[k].symbol in vocabulary || alignment[k].symbol == Unknown
    {
      assert merged[k] in phonemes;
    }
  }

  // ----- arctic numbering --------------------------------------------------

  /** One arctic utterance: its stem, the lines of its lab file and the
      duration of its audio in seconds. */
  datatype LabFile = LabFile(stem: string, lines: seq<string>, duration: real)

  /** One example written to the cache: its number, text and alignment. */
  datatype Example = Example(number: nat, text: string, alignment: seq<Segment>)

  /** The utterances whose stem has a sentence, in order. */
  function WithText(files: seq<LabFile>, sentences: map<string, string>): (r: seq<LabFile>)
    ensures |r| <= |files|
    ensures forall k :: 0 <= k < |r| ==> r[k].stem in sentences
  {
    if |files| == 0 then []
    else
      var rest := WithText(files[..|files| - 1], sentences);
      if files[|files| - 1].stem in sentences then rest + [files[|files| - 1]] else rest
  }

  /** An utterance is kept exactly when it is one of the files and has a sentence. */
  lemma {:induction false} WithTextMember(files: seq<LabFile>, sentences: map<string, string>, f: LabFile)
    ensures f in WithText(files, sentences) <==> f in files && f.stem in sentences
  {
    if |files| > 0 {
      WithTextMember(files[..|files| - 1], sentences, f);
      assert files == files[..|files| - 1] + [files[|files| - 1]];
    }
  }

  /** The examples written so far are the first of the chosen utterances,
      numbered from 0, each with its sentence and a converted lab file. */
  ghost predicate Numbered(written: seq<Example>, chosen: seq<LabFile>, sentences: map<string, string>,
                           vocabulary: seq<string>)
  {
    && |written| <= |chosen|
    && forall k :: 0 <= k < |written| ==>
      && written[k].number == k
      && chosen[k].stem in sentences
      && written[k].text == sentences[chosen[k].stem]
      && LabLaws(vocabulary, chosen[k].duration, written[k].alignment)
  }

  lemma NumberedAppend(written: seq<Example>, chosen: seq<LabFile>, sentences: map<string, string>,
                       vocabulary: seq<string>, example: Example)
    requires Numbered(written, chosen, sentences, vocabulary) && |written| < |chosen|
    requires chosen[|written|].stem in sentences && example.number == |written|
    requires example.text == sentences[chosen[|written|].stem]
    requires LabLaws(vocabulary, chosen[|written|].duration, example.alignment)
    ensures Numbered(written + [example], chosen, sentences, vocabulary)
  {
  }

  /** One utterance with text becomes example number i: its sentence and
      its converted lab file; a lab file that does not convert raises
      ValueError. */
  method CopyUtterance(file: LabFile, sentences: map<string, string>, vocabulary: seq<string>,
                       parse: string -> Option<real>, i: nat)
    returns (example: Example, e: Option<Error>)
    requires file.stem in sentences
    ensures e.Some? ==> e.value == ValueError
    ensures e.None? ==> && example.number == i && example.text == sentences[file.stem]
                        && LabLaws(vocabulary, file.duration, example.alignment)
  {
    var alignment := LabAlignment(file.lines, vocabulary, parse, file.duration);
    if alignment.Err? {
      return Example(i, "", []), Some(alignment.error);
    }
    example, e := Example(i, sentences[file.stem], alignment.value), None;
  }

  /** The copy loop of one arctic speaker: utterances without text are
      skipped, the others are numbered 0, 1, 2, ... in order; a lab file
      that does not convert stops the loop with its error. */
  method ArcticSpeaker(files: seq<LabFile>, sentences: map<string, string>,
                       vocabulary: seq<string>, parse: string -> Option<real>)
    returns (written: seq<Example>, e: Option<Error>)
    ensures e.Some? ==> e.value == ValueError
    ensures e.None? ==> |written| == |WithText(files, sentences)|
    ensures Numbered(written, WithText(files, sentences), sentences, vocabulary)
  {
    written := [];
    var i: nat := 0;
    ghost var chosen := WithText(files, sentences);
    for n := 0 to |files|
      invariant i == |written| <= |chosen| && WithText(files[..n], sentences) == chosen[..i]
      invariant Numbered(written, chosen, sentences, vocabulary)
    {
      ChosenStep(files, sentences, n, i);
      if files[n].stem !in sentences {
        continue;
      }
      var example, failed := CopyUtterance(files[n], sentences, vocabulary, parse, i);
      if failed.Some? {
        return written, failed;
      }
      NumberedAppend(written, chosen, sentences, vocabulary, example);
      written := written + [example];
      i := i + 1;
    }
    assert files[..|files|] == files;
    e := None;
  }

  /** The loop's view of the filter: utterance n is either skipped or is
      the next chosen one. */
  lemma ChosenStep(files: seq<LabFile>, sentences: map<string, string>, n: nat, i: nat)
    requires n < |files| && i <= |WithText(files, sentences)|
    requires WithText(files[..n], sentences) == WithText(files, sentences)[..i]
    ensures files[n].stem in sentences ==>
      && i < |WithText(files, sentences)| && WithText(files, sentences)[i] == files[n]
      && WithText(files[..n + 1], sentences) == WithText(files, sentences)[..i + 1]
    ensures files[n].stem !in sentences ==>
      WithText(files[..n + 1], sentences) == WithText(files, sentences)[..i]
  {
    WithTextStep(files, sentences, n);
    WithTextPrefix(files, sentences, n + 1);
    var all := WithText(files, sentences);
    var next := WithText(files[..n + 1], sentences);
    if files[n].stem in sentences {
      assert |next| == i + 1 && next[i] == files[n];
      assert next == all[..i + 1];
    }
  }

  /** One more utterance extends the filtered list by it or by nothing. */
  lemma WithTextStep(files: seq<LabFile>, sentences: map<string, string>, n: nat)
    requires n < |files|
    ensures WithText(files[..n + 1], sentences) ==
      WithText(files[..n], sentences) + (if files[n].stem in sentences then [files[n]] else [])
  {
    assert files[..n + 1][..n] == files[..n];
  }

  /** The filtered prefix of the utterances is a prefix of the filtered whole. */
  lemma {:induction false} WithTextPrefix(files: seq<LabFile>, sentences: map<string, string>, n: nat)
    requires n <= |files|
    ensures WithText(files[..n], sentences) <= WithText(files, sentences)
    decreases |files|
  {
    if n < |files| {
      var m := |files| - 1;
      WithTextPrefix(files[..m], sentences, n);
      assert files[..m][..n] == files[..n];
    } else {
      assert files[..n] == files;
    }
  }

  // ----- libritts numbering ------------------------------------------------

  /** A speaker's entry in `speaker_count`: its directory number and the
      number of its utterances seen so far. */
  datatype Entry = Entry(index: nat, count: nat)

  /** How often x occurs in s. */
  function Occurrences(s: seq<int>, x: int): nat
  {
    if |s| == 0 then 0
    else Occurrences(s[..|s| - 1], x) + (if s[|s| - 1] == x then 1 else 0)
  }

  ghost predicate Distinct(s: seq<int>)
  {
    forall i, j :: 0 <= i < j < |s| ==> s[i] != s[j]
  }

  /** The speakers in order of first appearance. */
  function FirstSeen(s: seq<int>): (r: seq<int>)
    ensures forall x :: x in r <==> x in s
    ensures Distinct(r)
  {
    if |s| == 0 then []
    else
      var rest := FirstSeen(s[..|s| - 1]);
      assert s == s[..|s| - 1] + [s[|s| - 1]];
      if s[|s| - 1] in rest then rest else rest + [s[|s| - 1]]
  }

  /** The position of x in r. */
  function Position(r: seq<int>, x: int): (k: nat)
    requires x in r
    ensures k < |r| && r[k] == x
    ensures forall i :: 0 <= i < k ==> r[i] != x
  {
    if r[0] == x then 0 else 1 + Position(r[1..], x)
  }

  /** The stem `{index:04d}/{count:06d}` of utterance k, as numbers. */
  function StemOf(speakers: seq<int>, k: nat): Entry
    requires k < |speakers|
  {
    Entry(Position(FirstSeen(speakers), speakers[k]), Occurrences(speakers[..k], speakers[k]))
  }

  /** `speaker_count` after the utterances s: every speaker seen maps to
      its first-seen position and its number of utterances. */
  ghost predicate CountsMatch(s: seq<int>, speakerCount: map<int, Entry>)
  {
    KeysMatch(s, speakerCount) && ValuesMatch(s, speakerCount)
  }

  ghost predicate KeysMatch(s: seq<int>, speakerCount: map<int, Entry>)
  {
    && (forall x :: x in speakerCount <==> x in s)
    && |speakerCount| == |FirstSeen(s)|
  }

  ghost predicate ValuesMatch(s: seq<int>, speakerCount: map<int, Entry>)
  {
    forall x :: x in speakerCount && x in s ==>
      speakerCount[x] == Entry(Position(FirstSeen(s), x), Occurrences(s, x))
  }

  /** The stems of the first i utterances, numbered against the speakers
      seen in them. */
  ghost predicate StemsMatch(speakers: seq<int>, i: nat, stems: seq<Entry>)
  {
    i <= |speakers| && NumberedBy(FirstSeen(speakers[..i]), speakers, i, stems)
  }

  /** The stems of the first i utterances, numbered against the speaker
      list r. */
  ghost predicate NumberedBy(r: seq<int>, speakers: seq<int>, i: nat, stems: seq<Entry>)
  {
    && i == |stems| <= |speakers|
    && forall k :: 0 <= k < i ==>
      speakers[k] in r && stems[k] == Entry(Position(r, speakers[k]), Occurrences(speakers[..k], speakers[k]))
  }

  /** Numbering against a longer list that extends r changes nothing. */
  lemma StemsExtend(r: seq<int>, t: seq<int>, speakers: seq<int>, i: nat, stems: seq<Entry>)
    requires NumberedBy(r, speakers, i, stems) && r <= t
    ensures NumberedBy(t, speakers, i, stems)
  {
    forall k | 0 <= k < i
      ensures speakers[k] in t && Position(t, speakers[k]) == Position(r, speakers[k])
    {
      PositionExtend(r, t, speakers[k]);
    }
  }

  /** One more stem, numbered against the same list. */
  lemma StemsAppend(r: seq<int>, speakers: seq<int>, i: nat, stems: seq<Entry>, entry: Entry)
    requires NumberedBy(r, speakers, i, stems) && i < |speakers| && speakers[i] in r
    requires entry == Entry(Position(r, speakers[i]), Occurrences(speakers[..i], speakers[i]))
    ensures NumberedBy(r, speakers, i + 1, stems + [entry])
  {
    var longer := stems + [entry];
    forall k | 0 <= k < i + 1
      ensures speakers[k] in r && longer[k] == Entry(Position(r, speakers[k]), Occurrences(speakers[..k], speakers[k]))
    {
      if k < i {
        assert longer[k] == stems[k];
      } else {
        assert longer[k] == entry;
      }
    }
  }

  /** One more utterance of speaker x: the first-seen list grows by x
      only if x is new. */
  lemma FirstSeenAppend(s: seq<int>, x: int)
    ensures FirstSeen(s + [x]) == if x in FirstSeen(s) then FirstSeen(s) else FirstSeen(s) + [x]
    ensures Occurrences(s + [x], x) == Occurrences(s, x) + 1
    ensures forall y :: y != x ==> Occurrences(s + [x], y) == Occurrences(s, y)
  {
    assert (s + [x])[..|s|] == s;
  }

  /** The dictionary update of one utterance keeps the dictionary in step,
      and the entry read is that utterance's stem. */
  lemma CountStep(s: seq<int>, x: int, before: map<int, Entry>, added: map<int, Entry>, after: map<int, Entry>)
    requires CountsMatch(s, before)
    requires added == if x in before then before else before[x := Entry(|before|, 0)]
    requires after == added[x := Entry(added[x].index, added[x].count + 1)]
    ensures added[x] == Entry(Position(FirstSeen(s + [x]), x), Occurrences(s, x))
    ensures CountsMatch(s + [x], after)
  {
    FirstSeenAppend(s, x);
    CountKeys(s, x, before, added, after);
    CountEntry(s, x, before, added);
    CountValues(s, x, before, added, after);
  }

  lemma CountKeys(s: seq<int>, x: int, before: map<int, Entry>, added: map<int, Entry>, after: map<int, Entry>)
    requires KeysMatch(s, before)
    requires FirstSeen(s + [x]) == if x in FirstSeen(s) then FirstSeen(s) else FirstSeen(s) + [x]
    requires added == if x in before then before else before[x := Entry(|before|, 0)]
    requires after == added[x := Entry(added[x].index, added[x].count + 1)]
    ensures KeysMatch(s + [x], after)
  {
    assert after.Keys == before.Keys + {x};
  }

  lemma CountEntry(s: seq<int>, x: int, before: map<int, Entry>, added: map<int, Entry>)
    requires CountsMatch(s, before)
    requires FirstSeen(s + [x]) == if x in FirstSeen(s) then FirstSeen(s) else FirstSeen(s) + [x]
    requires added == if x in before then before else before[x := Entry(|before|, 0)]
    ensures added[x] == Entry(Position(FirstSeen(s + [x]), x), Occurrences(s, x))
  {
    if x !in before {
      OccurrencesAbsent(s, x);
    } else {
      PositionExtend(FirstSeen(s), FirstSeen(s + [x]), x);
    }
  }

  lemma CountValues(s: seq<int>, x: int, before: map<int, Entry>, added: map<int, Entry>, after: map<int, Entry>)
    requires CountsMatch(s, before)
    requires FirstSeen(s + [x]) == if x in FirstSeen(s) then FirstSeen(s) else FirstSeen(s) + [x]
    requires Occurrences(s + [x], x) == Occurrences(s, x) + 1
    requires forall y :: y != x ==> Occurrences(s + [x], y) == Occurrences(s, y)
    requires x in added && added[x] == Entry(Position(FirstSeen(s + [x]), x), Occurrences(s, x))
    requires after == added[x := Entry(added[x].index, added[x].count + 1)]
    requires forall y :: y != x && y in added ==> y in before && added[y] == before[y]
    ensures ValuesMatch(s + [x], after)
  {
    var seen := FirstSeen(s);
    var next := FirstSeen(s + [x]);
    forall y | y in after && y in s + [x]
      ensures after[y] == Entry(Position(next, y), Occurrences(s + [x], y))
    {
      if y != x {
        assert y in s;
        PositionExtend(seen, next, y);
      }
    }
  }

  lemma StemsStep(speakers: seq<int>, i: nat, stems: seq<Entry>, entry: Entry)
    requires StemsMatch(speakers, i, stems) && i < |speakers|
    requires entry == Entry(Position(FirstSeen(speakers[..i + 1]), speakers[i]), Occurrences(speakers[..i], speakers[i]))
    ensures StemsMatch(speakers, i + 1, stems + [entry])
  {
    var seen := FirstSeen(speakers[..i]);
    var next := FirstSeen(speakers[..i + 1]);
    assert seen <= next && speakers[i] in next by {
      TakeOneMore(speakers, i);
      FirstSeenAppend(speakers[..i], speakers[i]);
    }
    StemsExtend(seen, next, speakers, i, stems);
    StemsAppend(next, speakers, i, stems, entry);
  }

  /** The dictionary work for one utterance of `speaker`: insert the
      speaker with the next directory number if new, read its entry, then
      count the utterance. */
  method Visit(speakerCount: map<int, Entry>, ghost seen: seq<int>, speaker: int)
    returns (updated: map<int, Entry>, entry: Entry)
    requires CountsMatch(seen, speakerCount)
    ensures entry == Entry(Position(FirstSeen(seen + [speaker]), speaker), Occurrences(seen, speaker))
    ensures CountsMatch(seen + [speaker], updated)
  {
    updated := speakerCount;
    if speaker !in updated {
      updated := updated[speaker := Entry(|updated|, 0)];
    }
    ghost var added := updated;
    entry := updated[speaker];
    updated := updated[speaker := Entry(entry.index, entry.count + 1)];
    CountStep(seen, speaker, speakerCount, added, updated);
  }

  /** The numbering loop over the sorted utterances, given the speaker of
      each: a new speaker gets the next directory number, and each of its
      utterances the next count. */
  method LibrittsStems(speakers: seq<int>) returns (stems: seq<Entry>)
    ensures |stems| == |speakers|
    ensures forall k :: 0 <= k < |speakers| ==> stems[k] == StemOf(speakers, k)
  {
    var speakerCount: map<int, Entry> := map[];
    stems := [];
    for i := 0 to |speakers|
      invariant CountsMatch(speakers[..i], speakerCount)
      invariant StemsMatch(speakers, i, stems)
    {
      var entry;
      speakerCount, entry := Visit(speakerCount, speakers[..i], speakers[i]);
      TakeOneMore(speakers, i);
      StemsStep(speakers, i, stems, entry);
      stems := stems + [entry];
    }
    StemsFinal(speakers, stems);
  }

  lemma StemsFinal(speakers: seq<int>, stems: seq<Entry>)
    requires StemsMatch(speakers, |speakers|, stems)
    ensures |stems| == |speakers|
    ensures forall k :: 0 <= k < |speakers| ==> stems[k] == StemOf(speakers, k)
  {
    assert speakers[..|speakers|] == speakers;
  }

  /** Appending to a list keeps the positions of its elements. */
  lemma PositionExtend(r: seq<int>, t: seq<int>, x: int)
    requires x in r && r <= t
    ensures Position(t, x) == Position(r, x)
  {
    var k := Position(r, x);
    assert t[k] == x;
  }

  /** Later utterances of a speaker have larger counts. */
  lemma {:induction false} OccurrencesGrow(s: seq<int>, k: nat, l: nat)
    requires k < l <= |s|
    ensures Occurrences(s[..l], s[k]) > Occurrences(s[..k], s[k])
    decreases l
  {
    assert s[..l][..l - 1] == s[..l - 1];
    if l > k + 1 {
      OccurrencesGrow(s, k, l - 1);
    }
  }

  /** No two utterances get the same stem. */
  lemma StemsDistinct(speakers: seq<int>, k: nat, l: nat)
    requires k < l < |speakers|
    ensures StemOf(speakers, k) != StemOf(speakers, l)
  {
    if speakers[k] == speakers[l] {
      OccurrencesGrow(speakers, k, l);
    }
  }

  /** The first utterance of a speaker gets the number of speakers seen
      before it, and count 0. */
  lemma {:induction false} FirstUtterance(speakers: seq<int>, k: nat)
    requires k < |speakers| && speakers[k] !in speakers[..k]
    ensures StemOf(speakers, k) == Entry(|FirstSeen(speakers[..k])|, 0)
  {
    var x := speakers[k];
    var next := speakers[..k + 1];
    assert next[..k] == speakers[..k] && next[k] == x;
    assert FirstSeen(next) == FirstSeen(speakers[..k]) + [x];
    FirstSeenPrefix(speakers, k + 1);
    PositionExtend(FirstSeen(next), FirstSeen(speakers), x);
    OccurrencesAbsent(speakers[..k], x);
  }

  lemma {:induction false} OccurrencesAbsent(s: seq<int>, x: int)
    requires x !in s
    ensures Occurrences(s, x) == 0
  {
    if |s| > 0 {
      assert forall y :: y in s[..|s| - 1] ==> y in s;
      OccurrencesAbsent(s[..|s| - 1], x);
    }
  }

  /** The speakers first seen in a prefix are a prefix of all first-seen
      speakers. */
  lemma {:induction false} FirstSeenPrefix(s: seq<int>, n: nat)
    requires n <= |s|
    ensures FirstSeen(s[..n]) <= FirstSeen(s)
    decreases |s| - n
  {
    if n < |s| {
      FirstSeenPrefix(s, n + 1);
      var next := s[..n + 1];
      assert next[..n] == s[..n];
    } else {
      assert s[..n] == s;
    }
  }

  // ----- dispatch ----------------------------------------------------------

  datatype Downloader = ArcticDownloader | LibrittsDownloader

  /** The downloader a dataset name selects. */
  function DownloaderFor(name: string): (r: Option<Downloader>)
    ensures r == Some(ArcticDownloader) <==> name == "arctic"
    ensures r == Some(LibrittsDownloader) <==> name == "libritts"
  {
    if name == "arctic" then Some(ArcticDownloader)
    else if name == "libritts" then Some(LibrittsDownloader)
    else None
  }

  /** `datasets`: runs the downloaders in order and stops with ValueError at
      the first unknown name. */
  method Datasets(names: seq<string>) returns (ran: seq<Downloader>, e: Option<Error>)
    ensures |ran| <= |names|
    ensures forall k :: 0 <= k < |ran| ==> DownloaderFor(names[k]) == Some(ran[k])
    ensures e.None? <==> |ran| == |names|
    ensures e.None? <==> forall k :: 0 <= k < |names| ==> DownloaderFor(names[k]).Some?
    ensures e.Some? ==> e.value == ValueError && DownloaderFor(names[|ran|]).None?
  {
    ran := [];
    for i := 0 to |names|
      invariant |ran| == i
      invariant forall k :: 0 <= k < i ==> DownloaderFor(names[k]) == Some(ran[k])
    {
      var downloader := DownloaderFor(names[i]);
      if downloader.None? {
        return ran, Some(ValueError);
      }
      ran := ran + [downloader.value];
    }
    e := None;
  }
}
