/** The P2FA baseline (pyfoal/baselines/p2fa.py): the same HTK input files
    and duration correction as the aligner in module P2fa, plus the steps
    only the baseline takes: the default worker count, `<silent>` tokens
    of the G2P output turned into word breaks, and the corrected alignment
    with HTK's `sp` renamed to silence and the stress digits removed. */
module BaselineP2fa {
  import opened Common
  import P2fa

  /** The default `num_workers`: half the files, at most half the CPUs,
      at least one. `os.cpu_count()` may be None, and halving None is a
      TypeError. */
  function DefaultWorkers(files: nat, cpus: Option<nat>): (r: Result<nat>)
    ensures r.Err? <==> cpus.None?
    ensures r.Err? ==> r.error == TypeError
    ensures r.Ok? ==> r.value >= 1
    ensures r.Ok? ==> r.value == 1 || (r.value <= files / 2 && r.value <= cpus.value / 2)
    ensures r.Ok? && files >= 2 && cpus.value >= 2 ==>
      (r.value == files / 2 || r.value == cpus.value / 2)
      && r.value <= files / 2 && r.value <= cpus.value / 2
  {
    match cpus
    case None => Err(TypeError)
    case Some(c) =>
      var half := if files / 2 <= c / 2 then files / 2 else c / 2;
      Ok(if half >= 1 then half else 1)
  }

  /** The G2P output with each `<silent>` token turned into the `' '` word
      break `split_phonemes` expects. */
  function Spaced(phonemes: seq<string>): (r: seq<string>)
    ensures |r| == |phonemes|
    ensures forall k :: 0 <= k < |r| ==> r[k] != Silent
    ensures forall k :: 0 <= k < |r| ==> (r[k] == " " <==> phonemes[k] == Silent || phonemes[k] == " ")
    ensures forall k :: 0 <= k < |r| && phonemes[k] != Silent ==> r[k] == phonemes[k]
  {
    seq(|phonemes|, k requires 0 <= k < |phonemes| => if phonemes[k] == Silent then " " else phonemes[k])
  }

  /** The loop over the G2P output that rewrites it in place. */
  method SilenceToSpace(phonemes: seq<string>) returns (r: seq<string>)
    ensures r == Spaced(phonemes)
    ensures |r| == |phonemes|
    ensures forall k :: 0 <= k < |r| ==> r[k] != Silent
    ensures forall k :: 0 <= k < |r| && phonemes[k] == Silent ==> r[k] == " "
    ensures forall k :: 0 <= k < |r| && phonemes[k] != Silent ==> r[k] == phonemes[k]
  {
    r := phonemes;
    for i := 0 to |r|
      invariant |r| == |phonemes|
      invariant forall k :: 0 <= k < i ==> r[k] == (if phonemes[k] == Silent then " " else phonemes[k])
      invariant forall k :: i <= k < |r| ==> r[k] == phonemes[k]
    {
      if r[i] == Silent {
        r := r[i := " "];
      }
    }
  }

  /** The baseline splits the rewritten G2P output: the words join back to
      it, and no word holds `<silent>`. */
  method BaselineSplit(phonemes: seq<string>) returns (words: seq<seq<string>>)
    ensures P2fa.IsSplit(Spaced(phonemes), words)
    ensures P2fa.WellSplit(words)
    ensures forall k, i :: 0 <= k < |words| && 0 <= i < |words[k]| ==> words[k][i] != Silent
  {
    var spaced := SilenceToSpace(phonemes);
    words := P2fa.SplitPhonemes(spaced);
    forall k, i | 0 <= k < |words| && 0 <= i < |words[k]|
      ensures words[k][i] != Silent
    {
      JoinedToken(words, k, i);
      var joined := P2fa.JoinWords(words);
      assert words[k][i] in spaced by {
        if joined != spaced {
          assert spaced == joined + [" "];
        }
      }
    }
  }

  /** Every token of a word occurs in the joined list. */
  lemma {:induction false} JoinedToken(words: seq<seq<string>>, k: nat, i: nat)
    requires k < |words| && i < |words[k]|
    ensures words[k][i] in P2fa.JoinWords(words)
  {
    var n := |words| - 1;
    if n > 0 {
      var front := P2fa.JoinWords(words[..n]);
      assert P2fa.JoinWords(words) == front + [" "] + words[n];
      if k < n {
        JoinedToken(words[..n], k, i);
        assert words[..n][k] == words[k];
      } else {
        assert P2fa.JoinWords(words)[|front| + 1 + i] == words[k][i];
      }
    }
  }

  /** `c.isdigit()` for ASCII digits. */
  predicate IsDigit(c: char)
  {
    '0' <= c <= '9'
  }

  /** `''.join(c for c in s if not c.isdigit())`. */
  function StripDigits(s: string): (r: string)
    ensures forall c :: c in r ==> !IsDigit(c) && c in s
    ensures |r| <= |s|
  {
    if |s| == 0 then ""
    else
      var rest := StripDigits(s[..|s| - 1]);
      assert forall c :: c in rest ==> c in s[..|s| - 1];
      rest + (if IsDigit(s[|s| - 1]) then "" else [s[|s| - 1]])
  }

  /** Text without digits is kept as it is. */
  lemma {:induction false} StripDigitsClean(s: string)
    requires forall k :: 0 <= k < |s| ==> !IsDigit(s[k])
    ensures StripDigits(s) == s
  {
    if |s| > 0 {
      var n := |s| - 1;
      var front := s[..n];
      assert forall k :: 0 <= k < |front| ==> front[k] == s[k];
      StripDigitsClean(front);
      TakeOneMore(s, n);
      assert s[..n + 1] == s;
    }
  }

  /** Stripping twice strips nothing more. */
  lemma StripDigitsIdempotent(s: string)
    ensures StripDigits(StripDigits(s)) == StripDigits(s)
  {
    var r := StripDigits(s);
    assert forall k :: 0 <= k < |r| ==> r[k] in r;
    StripDigitsClean(r);
  }

  /** The silence token has no digits, so the renaming survives stripping. */
  lemma SilenceKept()
    ensures StripDigits(Silent) == Silent
  {
    StripDigitsClean(Silent);
  }

  /** What the alignment correction reads and writes: the word strings and
      the phonemes. Word times follow from the phonemes in the alignment
      library and are not modelled. */
  datatype Alignment = Alignment(words: seq<string>, phones: seq<Phone>)

  /** HTK's short pause. */
  const Pause: string := "sp"

  /** The symbol a word gets: `sp` becomes silence. */
  function WordSymbol(word: string): string
  {
    if word == Pause then Silent else word
  }

  /** The symbol a phoneme gets: `sp` becomes silence, then the stress
      digits are removed. */
  function PhonemeSymbol(phoneme: string): string
  {
    StripDigits(if phoneme == Pause then Silent else phoneme)
  }

  /** A pause phoneme comes out as silence. */
  lemma PauseIsSilence()
    ensures PhonemeSymbol(Pause) == Silent
  {
    SilenceKept();
  }

  /** The two renaming loops of the baseline's `correct_alignment`. */
  method Rename(alignment: Alignment) returns (r: Alignment)
    ensures |r.words| == |alignment.words| && |r.phones| == |alignment.phones|
    ensures forall k :: 0 <= k < |r.words| ==> r.words[k] == WordSymbol(alignment.words[k])
    ensures forall k :: 0 <= k < |r.phones| ==>
      r.phones[k] == Phone(PhonemeSymbol(alignment.phones[k].symbol), alignment.phones[k].duration)
    ensures forall k :: 0 <= k < |r.phones| ==> forall c :: c in r.phones[k].symbol ==> !IsDigit(c)
  {
    var words := alignment.words;
    for i := 0 to |words|
      invariant |words| == |alignment.words|
      invariant forall k :: 0 <= k < i ==> words[k] == WordSymbol(alignment.words[k])
      invariant forall k :: i <= k < |words| ==> words[k] == alignment.words[k]
    {
      if words[i] == Pause {
        words := words[i := Silent];
      }
    }
    var phones := alignment.phones;
    for i := 0 to |phones|
      invariant |phones| == |alignment.phones|
      invariant forall k :: 0 <= k < i ==>
        phones[k] == Phone(PhonemeSymbol(alignment.phones[k].symbol), alignment.phones[k].duration)
      invariant forall k :: i <= k < |phones| ==> phones[k] == alignment.phones[k]
    {
      if phones[i].symbol == Pause {
        phones := phones[i := Phone(Silent, phones[i].duration)];
      }
      phones := phones[i := Phone(StripDigits(phones[i].symbol), phones[i].duration)];
    }
    r := Alignment(words, phones);
  }

  /** The baseline's `correct_alignment`: the durations corrected as in the
      aligner, then pauses renamed to silence and stress digits removed. */
  method CorrectAlignment(alignment: Alignment, duration: real) returns (r: Result<Alignment>)
    ensures r.Err? <==> |alignment.phones| == 0
    ensures r.Err? ==> r.error == IndexError
    ensures r.Ok? ==>
      && |r.value.words| == |alignment.words|
      && (forall k :: 0 <= k < |r.value.words| ==> r.value.words[k] == WordSymbol(alignment.words[k]))
      && Symbols(r.value.phones) == seq(|alignment.phones|, k requires 0 <= k < |alignment.phones| => PhonemeSymbol(alignment.phones[k].symbol))
      && Durations(r.value.phones) == P2fa.CorrectDurations(Durations(alignment.phones), duration).value
      && Sum(Durations(r.value.phones)) == duration
  {
    var corrected := P2fa.CorrectAlignment(alignment.phones, duration);
    if corrected.Err? {
      return Err(corrected.error);
    }
    var renamed := Rename(Alignment(alignment.words, corrected.value));
    assert Symbols(corrected.value) == Symbols(alignment.phones);
    assert forall k :: 0 <= k < |alignment.phones| ==> corrected.value[k].symbol == alignment.phones[k].symbol;
    assert Durations(renamed.phones) == Durations(corrected.value);
    r := Ok(renamed);
  }
}
