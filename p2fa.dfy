/** The text and duration helpers of the P2FA forced aligner (pyfoal/p2fa.py):
    cleaning the transcript, splitting a phoneme list into words, the
    lines of the HTK word list (MLF) and pronunciation dictionary, and the
    rate and offset correction of the aligned durations. HTK itself, the
    files and the grapheme-to-phoneme model are left out: a written file
    is its list of lines, `normalize_numbers` and the G2P output are
    parameters. */
module P2fa {
  import opened Common
  import Download
  import Order
  import Interpolate

  // ----- whitespace --------------------------------------------------------

  /** `s.replace(a, b)` for single characters. */
  function Replace(s: string, a: char, b: char): (r: string)
    ensures |r| == |s|
    ensures forall k :: 0 <= k < |s| ==> r[k] == (if s[k] == a then b else s[k])
  {
    seq(|s|, k requires 0 <= k < |s| => if s[k] == a then b else s[k])
  }

  /** `'  ' in s`. */
  predicate HasDoubleSpace(s: string)
  {
    exists k :: 0 <= k < |s| - 1 && s[k] == ' ' && s[k + 1] == ' '
  }

  /** `s.replace('  ', ' ')`: non-overlapping pairs of spaces, left to
      right, each become one space. */
  function ReplaceDoubleSpaces(s: string): (r: string)
    ensures |r| <= |s|
    ensures forall c :: c in r ==> c in s
  {
    if |s| < 2 then s
    else if s[0] == ' ' && s[1] == ' ' then
      var rest := ReplaceDoubleSpaces(s[2..]);
      assert forall c :: c in rest ==> c in s[2..];
      " " + rest
    else
      var rest := ReplaceDoubleSpaces(s[1..]);
      assert forall c :: c in rest ==> c in s[1..];
      [s[0]] + rest
  }

  /** Each pass of the loop shortens a text that still has a double space. */
  lemma {:induction false} ReplaceShrinks(s: string)
    requires HasDoubleSpace(s)
    ensures |ReplaceDoubleSpaces(s)| < |s|
  {
    if !(s[0] == ' ' && s[1] == ' ') {
      var k :| 0 <= k < |s| - 1 && s[k] == ' ' && s[k + 1] == ' ';
      assert s[1..][k - 1] == ' ' && s[1..][k] == ' ';
      ReplaceShrinks(s[1..]);
    }
  }

  /** Every run of spaces reduced to one space; `afterSpace` says whether
      the text so far ended with a space. */
  function Squeeze(afterSpace: bool, s: string): string
    decreases |s|
  {
    if |s| == 0 then ""
    else if s[0] == ' ' then
      (if afterSpace then "" else " ") + Squeeze(true, s[1..])
    else [s[0]] + Squeeze(false, s[1..])
  }

  /** One replacement pass does not change what the text squeezes to. */
  lemma {:induction false} SqueezeReplace(afterSpace: bool, s: string)
    ensures Squeeze(afterSpace, ReplaceDoubleSpaces(s)) == Squeeze(afterSpace, s)
    decreases |s|
  {
    if |s| >= 2 {
      if s[0] == ' ' && s[1] == ' ' {
        var rest := ReplaceDoubleSpaces(s[2..]);
        SqueezeReplace(true, s[2..]);
        assert (" " + rest)[1..] == rest;
        assert s[1..][1..] == s[2..];
      } else {
        var rest := ReplaceDoubleSpaces(s[1..]);
        SqueezeReplace(s[0] == ' ', s[1..]);
        assert ([s[0]] + rest)[1..] == rest;
      }
    }
  }

  /** A text without double spaces is already squeezed. */
  lemma {:induction false} SqueezeIdentity(afterSpace: bool, s: string)
    requires !HasDoubleSpace(s)
    requires afterSpace && |s| > 0 ==> s[0] != ' '
    ensures Squeeze(afterSpace, s) == s
    decreases |s|
  {
    if |s| > 0 {
      forall k | 0 <= k < |s| - 2
        ensures !(s[1..][k] == ' ' && s[1..][k + 1] == ' ')
      {
        assert s[1..][k] == s[k + 1] && s[1..][k + 1] == s[k + 2];
      }
      SqueezeIdentity(s[0] == ' ', s[1..]);
      assert s == [s[0]] + s[1..];
    }
  }

  /** Squeezing leaves no double space. */
  lemma {:induction false} SqueezeNoDouble(afterSpace: bool, s: string)
    ensures !HasDoubleSpace(Squeeze(afterSpace, s))
    ensures afterSpace && |Squeeze(afterSpace, s)| > 0 ==> Squeeze(afterSpace, s)[0] != ' '
    decreases |s|
  {
    if |s| > 0 {
      SqueezeNoDouble(s[0] == ' ', s[1..]);
      var head := if s[0] == ' ' then (if afterSpace then "" else " ") else [s[0]];
      var rest := Squeeze(s[0] == ' ', s[1..]);
      var r := head + rest;
      forall k | |head| <= k < |r| - 1
        ensures !(r[k] == ' ' && r[k + 1] == ' ')
      {
        assert r[k] == rest[k - |head|] && r[k + 1] == rest[k - |head| + 1];
      }
    }
  }

  /** The line-break and tab replacement and the double-space loop of
      `lint`: every run of spaces, tabs and line breaks becomes one space. */
  method CollapseWhitespace(text: string) returns (r: string)
    ensures r == Squeeze(false, Replace(Replace(text, '\n', ' '), '\t', ' '))
    ensures !HasDoubleSpace(r)
    ensures forall k :: 0 <= k < |r| ==> r[k] != '\n' && r[k] != '\t'
  {
    r := Replace(text, '\n', ' ');
    r := Replace(r, '\t', ' ');
    ghost var spaced := r;
    while HasDoubleSpace(r)
      invariant Squeeze(false, r) == Squeeze(false, spaced)
      invariant forall k :: 0 <= k < |r| ==> r[k] != '\n' && r[k] != '\t'
      decreases |r|
    {
      ReplaceShrinks(r);
      SqueezeReplace(false, r);
      var next := ReplaceDoubleSpaces(r);
      assert forall k :: 0 <= k < |next| ==> next[k] in r;
      r := next;
    }
    SqueezeIdentity(false, r);
  }

  // ----- punctuation -------------------------------------------------------

  /** `string.punctuation + '”“—'`. */
  const Punctuation: string := "!\"#$%&'()*+,-./:;<=>?@[\\]^_`{|}~\U{201D}\U{201C}\U{2014}"

  /** The characters the translation table deletes: all punctuation but
      the hyphen. */
  predicate Deleted(c: char)
  {
    c in Punctuation && c != '-'
  }

  /** The translation of one character: a hyphen becomes a space. */
  function TranslateChar(c: char): (r: string)
    ensures forall d :: d in r ==> !Deleted(d) && d != '-'
  {
    if c == '-' then " " else if Deleted(c) then "" else [c]
  }

  /** `s.translate(punctuation_table)`. */
  function Translate(s: string): (r: string)
    ensures forall c :: c in r ==> !Deleted(c) && c != '-'
  {
    if |s| == 0 then ""
    else
      var rest := Translate(s[..|s| - 1]);
      rest + TranslateChar(s[|s| - 1])
  }

  /** Translation works character by character. */
  lemma {:induction false} TranslateAppend(a: string, b: string)
    ensures Translate(a + b) == Translate(a) + Translate(b)
  {
    if |b| == 0 {
      assert a + b == a;
    } else {
      assert (a + b)[..|a + b| - 1] == a + b[..|b| - 1];
      TranslateAppend(a, b[..|b| - 1]);
    }
  }

  /** Text without punctuation and hyphens is kept as it is. */
  lemma {:induction false} TranslateClean(s: string)
    requires forall k :: 0 <= k < |s| ==> !Deleted(s[k]) && s[k] != '-'
    ensures Translate(s) == s
  {
    if |s| > 0 {
      TranslateClean(s[..|s| - 1]);
      assert s == s[..|s| - 1] + [s[|s| - 1]];
    }
  }

  /** `lint`: whitespace collapsed, numbers spelled out (`normalize_numbers`,
      given), then hyphens turned into spaces and other punctuation
      deleted. */
  method Lint(text: string, normalizeNumbers: string -> string) returns (r: string)
    ensures r == Translate(normalizeNumbers(Squeeze(false, Replace(Replace(text, '\n', ' '), '\t', ' '))))
    ensures forall c :: c in r ==> !Deleted(c) && c != '-'
  {
    var collapsed := CollapseWhitespace(text);
    r := Translate(normalizeNumbers(collapsed));
  }

  // ----- splitting phonemes into words -------------------------------------

  /** The phonemes of the words with a `' '` token between neighbours. */
  function JoinWords(words: seq<seq<string>>): seq<string>
  {
    if |words| == 0 then []
    else if |words| == 1 then words[0]
    else JoinWords(words[..|words| - 1]) + [" "] + words[|words| - 1]
  }

  /** No word is empty and `' '` appears only as the first token of a word. */
  ghost predicate WellSplit(words: seq<seq<string>>)
  {
    forall k :: 0 <= k < |words| ==> |words[k]| > 0 && SpaceFirstOnly(words[k])
  }

  ghost predicate SpaceFirstOnly(word: seq<string>)
  {
    forall i :: 0 < i < |word| ==> word[i] != " "
  }

  /** What `split_phonemes` returns for `phonemes`: well split, and joining
      the words gives the phonemes back, except for a final `' '` that
      closed the last word (so there is one). */
  ghost predicate IsSplit(phonemes: seq<string>, words: seq<seq<string>>)
  {
    && WellSplit(words)
    && (JoinWords(words) == phonemes
        || (|words| > 0 && |phonemes| > 0 && phonemes[|phonemes| - 1] == " " && JoinWords(words) + [" "] == phonemes))
  }

  /** A lone `' '` is one word of its own, never no words. */
  lemma SplitLoneSpace(words: seq<seq<string>>)
    requires IsSplit([" "], words)
    ensures words == [[" "]]
  {
    assert |words| > 0;
  }

  /** The phonemes read so far, given the closed words and the open one. */
  function Pending(words: seq<seq<string>>, word: seq<string>): seq<string>
  {
    if |words| == 0 then word else JoinWords(words) + [" "] + word
  }

  /** Closing a non-empty word adds the separating `' '`. */
  lemma PendingClose(words: seq<seq<string>>, word: seq<string>)
    requires |word| > 0
    ensures Pending(words + [word], []) == Pending(words, word) + [" "]
    ensures JoinWords(words + [word]) == Pending(words, word)
  {
    assert (words + [word])[..|words|] == words;
  }

  /** One token of `split_phonemes`. */
  method SplitStep(words: seq<seq<string>>, word: seq<string>, phoneme: string)
    returns (words': seq<seq<string>>, word': seq<string>)
    requires WellSplit(words) && SpaceFirstOnly(word)
    ensures WellSplit(words') && SpaceFirstOnly(word')
    ensures Pending(words', word') == Pending(words, word) + [phoneme]
    ensures |words'| > 0 && |word'| == 0 ==> phoneme == " "
  {
    if phoneme == " " && |word| > 0 {
      PendingClose(words, word);
      words', word' := words + [word], [];
    } else {
      words', word' := words, word + [phoneme];
    }
  }

  /** `split_phonemes`: a `' '` closes a non-empty word and is dropped;
      any other token, or a `' '` that would start a word, is appended. */
  method SplitPhonemes(phonemes: seq<string>) returns (words: seq<seq<string>>)
    ensures IsSplit(phonemes, words)
    ensures (|phonemes| == 0 || phonemes[|phonemes| - 1] != " ") ==> JoinWords(words) == phonemes
  {
    var word: seq<string> := [];
    words := [];
    for i := 0 to |phonemes|
      invariant WellSplit(words) && SpaceFirstOnly(word)
      invariant Pending(words, word) == phonemes[..i]
      invariant |words| > 0 && |word| == 0 ==> i > 0 && phonemes[i - 1] == " "
    {
      assert phonemes[..i + 1] == phonemes[..i] + [phonemes[i]];
      words, word := SplitStep(words, word, phonemes[i]);
    }
    assert phonemes[..|phonemes|] == phonemes;
    if |word| > 0 {
      PendingClose(words, word);
      words := words + [word];
    }
  }

  // ----- the HTK input files -----------------------------------------------

  /** `c.upper()` for ASCII letters. */
  function UpperChar(c: char): char
  {
    if 'a' <= c <= 'z' then (c as int - 32) as char else c
  }

  /** `s.upper()`, on ASCII letters. */
  function Upper(s: string): (r: string)
    ensures |r| == |s| && forall k :: 0 <= k < |s| ==> r[k] == UpperChar(s[k])
  {
    seq(|s|, k requires 0 <= k < |s| => UpperChar(s[k]))
  }

  /** The words of the transcript as the MLF file names them. */
  function MlfWords(text: string): seq<string>
  {
    Download.Words(Upper(text))
  }

  /** `write_words`: the MLF header, then `sp` before every upper-cased word
      and once more at the end. */
  method WriteWords(text: string) returns (lines: seq<string>)
    ensures |lines| == 2 * |MlfWords(text)| + 3
    ensures lines[0] == "#!MLF!#\n" && lines[1] == "\"*/tmp.lab\"\n"
    ensures forall k :: 0 <= k < |MlfWords(text)| ==>
      lines[2 + 2 * k] == "sp\n" && lines[3 + 2 * k] == MlfWords(text)[k] + "\n"
    ensures lines[|lines| - 1] == "sp\n"
  {
    var words := MlfWords(text);
    lines := ["#!MLF!#\n", "\"*/tmp.lab\"\n"];
    for i := 0 to |words|
      invariant |lines| == 2 * i + 2
      invariant lines[0] == "#!MLF!#\n" && lines[1] == "\"*/tmp.lab\"\n"
      invariant forall k :: 0 <= k < i ==> lines[2 + 2 * k] == "sp\n" && lines[3 + 2 * k] == words[k] + "\n"
    {
      lines := lines + ["sp\n", words[i] + "\n"];
    }
    lines := lines + ["sp\n"];
  }

  /** The dictionary line of one word: the word, two spaces, its phonemes
      joined by single spaces. */
  function DictionaryEntry(word: string, phonemes: seq<string>): string
  {
    word + "  " + Download.Join(phonemes) + "\n"
  }

  /** The entry of the optional short pause. */
  const PauseEntry: string := "sp  sp\n"

  /** The entries for `zip(words, pronunciations)`, which stops at the
      shorter list. */
  function Entries(words: seq<string>, pronunciations: seq<seq<string>>): (r: seq<string>)
    ensures |r| == Download.Min(|words|, |pronunciations|)
    ensures forall k :: 0 <= k < |r| ==> r[k] == DictionaryEntry(words[k], pronunciations[k])
  {
    var n := Download.Min(|words|, |pronunciations|);
    seq(n, k requires 0 <= k < n => DictionaryEntry(words[k], pronunciations[k]))
  }

  /** The dictionary file: the entries and the pause entry, in sorted order. */
  method DictionaryLines(words: seq<string>, pronunciations: seq<seq<string>>) returns (lines: seq<string>)
    ensures Order.Sorted(lines)
    ensures multiset(lines) == multiset(Entries(words, pronunciations)) + multiset{PauseEntry}
    ensures PauseEntry in lines
  {
    lines := Entries(words, pronunciations) + [PauseEntry];
    lines := Order.Sort(lines);
    Order.SortSorted(Entries(words, pronunciations) + [PauseEntry]);
    assert PauseEntry in multiset(lines);
  }

  /** `write_pronunciation`, with the G2P output given as `phonemes`. */
  method WritePronunciation(text: string, phonemes: seq<string>) returns (lines: seq<string>)
    ensures Order.Sorted(lines) && PauseEntry in lines
    ensures exists split :: IsSplit(phonemes, split) &&
      multiset(lines) == multiset(Entries(MlfWords(text), split)) + multiset{PauseEntry}
  {
    var split := SplitPhonemes(phonemes);
    lines := DictionaryLines(MlfWords(text), split);
  }

  /** Two sorted dictionaries with the same lines are the same file. */
  lemma DictionaryDeterministic(a: seq<string>, b: seq<string>)
    requires Order.Sorted(a) && Order.Sorted(b) && multiset(a) == multiset(b)
    ensures a == b
  {
    Order.SortedUnique(a, b);
  }

  // ----- correcting the alignment ------------------------------------------

  /** The constant offset added to the first phoneme, in seconds. */
  const Offset: real := 0.0125

  /** `durations[0] += .0125`, every duration times 11000/11025, then the
      last replaced so that all add up to `duration`. An empty alignment
      fails at `durations[0]`. */
  function CorrectDurations(durations: seq<real>, duration: real): (r: Result<seq<real>>)
    ensures r.Err? <==> |durations| == 0
    ensures r.Err? ==> r.error == IndexError
    ensures r.Ok? ==> |r.value| == |durations| && Sum(r.value) == duration
    ensures r.Ok? ==> forall k :: 0 <= k < |durations| - 1 ==>
      r.value[k] == (if k == 0 then durations[0] + Offset else durations[k]) * 11000.0 / 11025.0
    ensures r.Ok? ==> r.value[|durations| - 1] == duration - Sum(r.value[..|durations| - 1])
  {
    if |durations| == 0 then Err(IndexError)
    else
      var offset := durations[0 := durations[0] + Offset];
      var scaled := seq(|offset|, k requires 0 <= k < |offset| => offset[k] * 11000.0 / 11025.0);
      var n := |scaled| - 1;
      var r := scaled[n := duration - Sum(scaled[..n])];
      assert r[..n] == scaled[..n];
      Ok(r)
  }

  /** `correct_alignment`: the corrected durations written back into the
      same phonemes. */
  function CorrectAlignment(phones: seq<Phone>, duration: real): (r: Result<seq<Phone>>)
    ensures r.Err? <==> |phones| == 0
    ensures r.Err? ==> r.error == IndexError
    ensures r.Ok? ==> Symbols(r.value) == Symbols(phones)
    ensures r.Ok? ==> Durations(r.value) == CorrectDurations(Durations(phones), duration).value
    ensures r.Ok? ==> Sum(Durations(r.value)) == duration
  {
    var durations :- CorrectDurations(Durations(phones), duration);
    Ok(Interpolate.Relabel(phones, durations))
  }
}
