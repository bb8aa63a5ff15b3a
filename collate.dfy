/** Batch collation (pyfoal/data/collate.py): items of different lengths
    are zero-padded into rectangular tensors, with a mask marking the
    valid (frame, phoneme) cells of each item's prior. `samples_to_frames`
    is a parameter. */
module Collate {
  import opened Common

  /** One dataset item, as `Dataset.__getitem__` returns it. */
  datatype Item = Item(phonemes: seq<int>, audio: seq<real>, prior: seq<seq<real>>,
                       alignment: Option<seq<Phone>>, text: string, stem: string)

  /** The collated batch, in the order `collate` returns it. */
  datatype Collated = Collated(
    phonemes: array3<int>, audio: array3<real>, priors: array3<real>, mask: array3<bool>,
    phonemeLengths: seq<nat>, frameLengths: seq<nat>,
    stems: seq<string>, alignments: seq<Option<seq<Phone>>>, text: seq<string>)

  /** `tensor.max()` of a non-empty list of lengths. */
  function Max(s: seq<nat>): (m: nat)
    requires |s| > 0
    ensures forall i :: 0 <= i < |s| ==> s[i] <= m
    ensures exists i :: 0 <= i < |s| && s[i] == m
  {
    if |s| == 1 then s[0]
    else
      var m := Max(s[..|s| - 1]);
      assert forall i :: 0 <= i < |s| - 1 ==> s[..|s| - 1][i] == s[i];
      if s[|s| - 1] > m then s[|s| - 1] else m
  }

  function PhonemeLengths(batch: seq<Item>): (ls: seq<nat>)
    ensures |ls| == |batch| && forall i :: 0 <= i < |batch| ==> ls[i] == |batch[i].phonemes|
  {
    seq(|batch|, i requires 0 <= i < |batch| => |batch[i].phonemes|)
  }

  function AudioLengths(batch: seq<Item>): (ls: seq<nat>)
    ensures |ls| == |batch| && forall i :: 0 <= i < |batch| ==> ls[i] == |batch[i].audio|
  {
    seq(|batch|, i requires 0 <= i < |batch| => |batch[i].audio|)
  }

  function FrameLengths(batch: seq<Item>, samplesToFrames: nat -> nat): (ls: seq<nat>)
    ensures |ls| == |batch| && forall i :: 0 <= i < |batch| ==> ls[i] == samplesToFrames(|batch[i].audio|)
  {
    seq(|batch|, i requires 0 <= i < |batch| => samplesToFrames(|batch[i].audio|))
  }

  /** Every prior fits the slice `[:frame_length, :phoneme_length]` it is
      written to; otherwise the assignment raises. */
  predicate Shaped(batch: seq<Item>, samplesToFrames: nat -> nat)
    requires |batch| > 0
  {
    forall i :: 0 <= i < |batch| ==>
      && samplesToFrames(|batch[i].audio|) <= samplesToFrames(Max(AudioLengths(batch)))
      && |batch[i].prior| == samplesToFrames(|batch[i].audio|)
      && forall t :: 0 <= t < |batch[i].prior| ==> |batch[i].prior[t]| == |batch[i].phonemes|
  }

  /** Cell (i, _, k) of the padded phonemes; the audio is padded the same way. */
  function Padded<T>(values: seq<T>, k: int, zero: T): T
  {
    if 0 <= k < |values| then values[k] else zero
  }

  /** Cell (i, t, p) of the padded priors. */
  function PaddedPrior(item: Item, t: int, p: int): real
  {
    if 0 <= t < |item.prior| && 0 <= p < |item.prior[t]| then item.prior[t][p] else 0.0
  }

  /** Cell (i, t, p) of the mask: inside item i's frames and phonemes. */
  predicate Valid(item: Item, frames: nat, t: int, p: int)
  {
    0 <= t < frames && 0 <= p < |item.phonemes|
  }

  /** Writes `values` to `a[i, 0, :len(values)]`. */
  method FillLine<T>(a: array3<T>, i: nat, values: seq<T>)
    requires i < a.Length0 && a.Length1 == 1 && |values| <= a.Length2
    modifies a
    ensures forall x, y, z :: 0 <= x < a.Length0 && 0 <= y < a.Length1 && 0 <= z < a.Length2 ==>
      a[x, y, z] == if x == i && z < |values| then values[z] else old(a[x, y, z])
  {
    var k := 0;
    while k < |values|
      invariant 0 <= k <= |values|
      invariant forall x, y, z :: 0 <= x < a.Length0 && 0 <= y < a.Length1 && 0 <= z < a.Length2 ==>
        a[x, y, z] == if x == i && z < k then values[z] else old(a[x, y, z])
    {
      a[i, 0, k] := values[k];
      k := k + 1;
    }
  }

  /** Writes `block` to `a[i, :rows, :cols]`. */
  method FillBlock<T>(a: array3<T>, i: nat, block: seq<seq<T>>, cols: nat)
    requires i < a.Length0 && |block| <= a.Length1 && cols <= a.Length2
    requires forall t :: 0 <= t < |block| ==> |block[t]| == cols
    modifies a
    ensures forall x, y, z :: 0 <= x < a.Length0 && 0 <= y < a.Length1 && 0 <= z < a.Length2 ==>
      a[x, y, z] == if x == i && y < |block| && z < cols then block[y][z] else old(a[x, y, z])
  {
    var t := 0;
    while t < |block|
      invariant 0 <= t <= |block|
      invariant forall x, y, z :: 0 <= x < a.Length0 && 0 <= y < a.Length1 && 0 <= z < a.Length2 ==>
        a[x, y, z] == if x == i && y < t && z < cols then block[y][z] else old(a[x, y, z])
    {
      var p := 0;
      while p < cols
        invariant 0 <= p <= cols
        invariant forall x, y, z :: 0 <= x < a.Length0 && 0 <= y < a.Length1 && 0 <= z < a.Length2 ==>
          a[x, y, z] == if x == i && (y < t || (y == t && z < p)) && z < cols then block[y][z] else old(a[x, y, z])
      {
        a[i, t, p] := block[t][p];
        p := p + 1;
      }
      t := t + 1;
    }
  }

  /** Rows before i of the padded phonemes hold their items, the rest zeros. */
  ghost predicate LinesPlaced<T>(a: array3<T>, rows: seq<seq<T>>, i: int, zero: T)
    reads a
  {
    forall x, y, z :: 0 <= x < a.Length0 && 0 <= y < a.Length1 && 0 <= z < a.Length2 ==>
      a[x, y, z] == if x < i && x < |rows| then Padded(rows[x], z, zero) else zero
  }

  ghost predicate PriorsPlaced(a: array3<real>, batch: seq<Item>, i: int)
    reads a
  {
    forall x, y, z :: 0 <= x < a.Length0 && 0 <= y < a.Length1 && 0 <= z < a.Length2 ==>
      a[x, y, z] == if x < i && x < |batch| then PaddedPrior(batch[x], y, z) else 0.0
  }

  ghost predicate MaskPlaced(a: array3<bool>, batch: seq<Item>, frameLengths: seq<nat>, i: int)
    reads a
  {
    forall x, y, z :: 0 <= x < a.Length0 && 0 <= y < a.Length1 && 0 <= z < a.Length2 ==>
      a[x, y, z] == (x < i && x < |batch| && x < |frameLengths| && Valid(batch[x], frameLengths[x], y, z))
  }

  /** `padded[i, :, :len] = values` for the phonemes or the audio. */
  method PlaceLine<T>(a: array3<T>, rows: seq<seq<T>>, i: nat, zero: T)
    requires i < a.Length0 && i < |rows| && a.Length1 == 1 && |rows[i]| <= a.Length2
    requires LinesPlaced(a, rows, i, zero)
    modifies a
    ensures LinesPlaced(a, rows, i + 1, zero)
  {
    FillLine(a, i, rows[i]);
  }

  /** `padded_priors[i, :frame_length, :phoneme_length] = prior`. */
  method PlacePrior(a: array3<real>, batch: seq<Item>, i: nat)
    requires i < a.Length0 && i < |batch| && |batch[i].prior| <= a.Length1 && |batch[i].phonemes| <= a.Length2
    requires forall t :: 0 <= t < |batch[i].prior| ==> |batch[i].prior[t]| == |batch[i].phonemes|
    requires PriorsPlaced(a, batch, i)
    modifies a
    ensures PriorsPlaced(a, batch, i + 1)
  {
    FillBlock(a, i, batch[i].prior, |batch[i].phonemes|);
  }

  /** `mask[i, :frame_length, :phoneme_length] = True`. */
  method PlaceMask(a: array3<bool>, batch: seq<Item>, frameLengths: seq<nat>, i: nat)
    requires i < a.Length0 && i < |batch| && i < |frameLengths|
    requires frameLengths[i] <= a.Length1 && |batch[i].phonemes| <= a.Length2
    requires MaskPlaced(a, batch, frameLengths, i)
    modifies a
    ensures MaskPlaced(a, batch, frameLengths, i + 1)
  {
    var ones := seq(frameLengths[i], t => seq(|batch[i].phonemes|, p => true));
    FillBlock(a, i, ones, |batch[i].phonemes|);
  }

  /** Every item fits the tensors: its phonemes, audio and prior are no
      longer than the padded sizes, and each prior row spans its phonemes. */
  ghost predicate Fits(batch: seq<Item>, frameLengths: seq<nat>, maxPhonemes: nat, maxAudio: nat, maxFrames: nat)
  {
    && |frameLengths| == |batch|
    && forall i :: 0 <= i < |batch| ==> FitsItem(batch[i], frameLengths[i], maxPhonemes, maxAudio, maxFrames)
  }

  ghost predicate FitsItem(item: Item, frames: nat, maxPhonemes: nat, maxAudio: nat, maxFrames: nat)
  {
    && |item.phonemes| <= maxPhonemes && |item.audio| <= maxAudio
    && frames <= maxFrames && |item.prior| == frames
    && forall t :: 0 <= t < |item.prior| ==> |item.prior[t]| == |item.phonemes|
  }

  /** `torch.zeros` of the given shape (or `torch.zeros(..., dtype=bool)`). */
  method Zeros<T>(n: nat, rows: nat, cols: nat, zero: T) returns (a: array3<T>)
    ensures fresh(a) && a.Length0 == n && a.Length1 == rows && a.Length2 == cols
    ensures forall x, y, z :: 0 <= x < n && 0 <= y < rows && 0 <= z < cols ==> a[x, y, z] == zero
  {
    a := new T[n, rows, cols]((x, y, z) => zero);
  }

  /** The loop of `collate`: copies item i into row i of each zero tensor. */
  method Pad(batch: seq<Item>, frameLengths: seq<nat>, maxPhonemes: nat, maxAudio: nat, maxFrames: nat)
    returns (phonemes: array3<int>, audio: array3<real>, priors: array3<real>, mask: array3<bool>)
    requires Fits(batch, frameLengths, maxPhonemes, maxAudio, maxFrames)
    ensures fresh(phonemes) && fresh(audio) && fresh(priors) && fresh(mask)
    ensures phonemes.Length0 == |batch| && phonemes.Length1 == 1 && phonemes.Length2 == maxPhonemes
    ensures audio.Length0 == |batch| && audio.Length1 == 1 && audio.Length2 == maxAudio
    ensures priors.Length0 == |batch| && priors.Length1 == maxFrames && priors.Length2 == maxPhonemes
    ensures mask.Length0 == |batch| && mask.Length1 == maxFrames && mask.Length2 == maxPhonemes
    ensures LinesPlaced(phonemes, PhonemeRows(batch), |batch|, 0)
    ensures LinesPlaced(audio, AudioRows(batch), |batch|, 0.0)
    ensures PriorsPlaced(priors, batch, |batch|)
    ensures MaskPlaced(mask, batch, frameLengths, |batch|)
  {
    var n := |batch|;
    phonemes := Zeros(n, 1, maxPhonemes, 0);
    assert LinesPlaced(phonemes, PhonemeRows(batch), 0, 0);
    audio := Zeros(n, 1, maxAudio, 0.0);
    assert LinesPlaced(audio, AudioRows(batch), 0, 0.0);
    priors := Zeros(n, maxFrames, maxPhonemes, 0.0);
    assert PriorsPlaced(priors, batch, 0);
    mask := Zeros(n, maxFrames, maxPhonemes, false);
    assert MaskPlaced(mask, batch, frameLengths, 0);
    var phonemeRows := PhonemeRows(batch);
    var audioRows := AudioRows(batch);
    var i := 0;
    while i < n
      invariant 0 <= i <= n
      invariant LinesPlaced(phonemes, phonemeRows, i, 0)
      invariant LinesPlaced(audio, audioRows, i, 0.0)
      invariant PriorsPlaced(priors, batch, i)
      invariant MaskPlaced(mask, batch, frameLengths, i)
    {
      assert FitsItem(batch[i], frameLengths[i], maxPhonemes, maxAudio, maxFrames);
      PlaceLine(phonemes, phonemeRows, i, 0);
      PlaceLine(audio, audioRows, i, 0.0);
      PlacePrior(priors, batch, i);
      PlaceMask(mask, batch, frameLengths, i);
      i := i + 1;
    }
  }

  function PhonemeRows(batch: seq<Item>): (rows: seq<seq<int>>)
    ensures |rows| == |batch| && forall i :: 0 <= i < |batch| ==> rows[i] == batch[i].phonemes
  {
    seq(|batch|, i requires 0 <= i < |batch| => batch[i].phonemes)
  }

  function AudioRows(batch: seq<Item>): (rows: seq<seq<real>>)
    ensures |rows| == |batch| && forall i :: 0 <= i < |batch| ==> rows[i] == batch[i].audio
  {
    seq(|batch|, i requires 0 <= i < |batch| => batch[i].audio)
  }

  /** A batch is Shaped exactly when it fits the tensors sized by its maxima. */
  lemma ShapedFits(batch: seq<Item>, samplesToFrames: nat -> nat)
    requires |batch| > 0
    ensures Shaped(batch, samplesToFrames) <==>
      Fits(batch, FrameLengths(batch, samplesToFrames), Max(PhonemeLengths(batch)),
           Max(AudioLengths(batch)), samplesToFrames(Max(AudioLengths(batch))))
  {
    var ps, au := PhonemeLengths(batch), AudioLengths(batch);
    var mp, ma := Max(ps), Max(au);
    assert forall i :: 0 <= i < |batch| ==> ps[i] <= mp && au[i] <= ma;
  }

  /** `collate`: an empty batch fails at the unpacking (ValueError), a
      prior that does not fit its slice fails the assignment
      (RuntimeError); otherwise every item is copied into row i of the
      zero-padded tensors and its valid rectangle is marked in the mask. */
  method Collate(batch: seq<Item>, samplesToFrames: nat -> nat) returns (r: Result<Collated>)
    ensures |batch| == 0 ==> r == Err(ValueError)
    ensures |batch| > 0 && !Shaped(batch, samplesToFrames) ==> r == Err(RuntimeError)
    ensures |batch| > 0 && Shaped(batch, samplesToFrames) ==> r.Ok? && Output(batch, samplesToFrames, r.value)
    ensures r.Ok? ==> fresh(r.value.phonemes) && fresh(r.value.audio)
                      && fresh(r.value.priors) && fresh(r.value.mask)
  {
    if |batch| == 0 {
      return Err(ValueError);
    }
    var n := |batch|;
    var phonemeLengths := PhonemeLengths(batch);
    var maxPhonemes := Max(phonemeLengths);
    var maxAudio := Max(AudioLengths(batch));
    var frameLengths := FrameLengths(batch, samplesToFrames);
    var maxFrames := samplesToFrames(maxAudio);
    if !Shaped(batch, samplesToFrames) {
      return Err(RuntimeError);
    }
    ShapedFits(batch, samplesToFrames);
    var phonemes, audio, priors, mask := Pad(batch, frameLengths, maxPhonemes, maxAudio, maxFrames);
    var stems := seq(n, k requires 0 <= k < n => batch[k].stem);
    var alignments := seq(n, k requires 0 <= k < n => batch[k].alignment);
    var text := seq(n, k requires 0 <= k < n => batch[k].text);
    r := Ok(Collated(phonemes, audio, priors, mask, phonemeLengths, frameLengths,
                     stems, alignments, text));
    PlacedOutput(batch, samplesToFrames, r.value);
  }

  lemma PlacedOutput(batch: seq<Item>, samplesToFrames: nat -> nat, c: Collated)
    requires |batch| > 0
    requires c.phonemeLengths == PhonemeLengths(batch)
    requires c.frameLengths == FrameLengths(batch, samplesToFrames)
    requires |c.stems| == |batch| && |c.alignments| == |batch| && |c.text| == |batch|
    requires forall k :: 0 <= k < |batch| ==>
      c.stems[k] == batch[k].stem && c.alignments[k] == batch[k].alignment && c.text[k] == batch[k].text
    requires c.phonemes.Length0 == |batch| && c.phonemes.Length1 == 1 && c.phonemes.Length2 == Max(PhonemeLengths(batch))
    requires c.audio.Length0 == |batch| && c.audio.Length1 == 1 && c.audio.Length2 == Max(AudioLengths(batch))
    requires c.priors.Length0 == |batch| && c.priors.Length1 == samplesToFrames(Max(AudioLengths(batch)))
    requires c.priors.Length2 == Max(PhonemeLengths(batch))
    requires c.mask.Length0 == |batch| && c.mask.Length1 == c.priors.Length1 && c.mask.Length2 == c.priors.Length2
    requires LinesPlaced(c.phonemes, PhonemeRows(batch), |batch|, 0)
    requires LinesPlaced(c.audio, AudioRows(batch), |batch|, 0.0)
    requires PriorsPlaced(c.priors, batch, |batch|)
    requires MaskPlaced(c.mask, batch, c.frameLengths, |batch|)
    ensures Output(batch, samplesToFrames, c)
  {
  }

  /** What a successful collation holds. */
  ghost predicate Output(batch: seq<Item>, samplesToFrames: nat -> nat, c: Collated)
    requires |batch| > 0
    reads c.phonemes, c.audio, c.priors, c.mask
  {
    var n := |batch|;
    var maxPhonemes := Max(PhonemeLengths(batch));
    var maxAudio := Max(AudioLengths(batch));
    var maxFrames := samplesToFrames(maxAudio);
    && c.phonemeLengths == PhonemeLengths(batch)
    && c.frameLengths == FrameLengths(batch, samplesToFrames)
    && |c.stems| == n && |c.alignments| == n && |c.text| == n
    && (forall k :: 0 <= k < n ==>
          c.stems[k] == batch[k].stem && c.alignments[k] == batch[k].alignment
          && c.text[k] == batch[k].text)
    && c.phonemes.Length0 == n && c.phonemes.Length1 == 1 && c.phonemes.Length2 == maxPhonemes
    && c.audio.Length0 == n && c.audio.Length1 == 1 && c.audio.Length2 == maxAudio
    && c.priors.Length0 == n && c.priors.Length1 == maxFrames && c.priors.Length2 == maxPhonemes
    && c.mask.Length0 == n && c.mask.Length1 == maxFrames && c.mask.Length2 == maxPhonemes
    && (forall x, z :: 0 <= x < n && 0 <= z < maxPhonemes ==>
          c.phonemes[x, 0, z] == Padded(batch[x].phonemes, z, 0))
    && (forall x, z :: 0 <= x < n && 0 <= z < maxAudio ==>
          c.audio[x, 0, z] == Padded(batch[x].audio, z, 0.0))
    && (forall x, y, z :: 0 <= x < n && 0 <= y < maxFrames && 0 <= z < maxPhonemes ==>
          c.priors[x, y, z] == PaddedPrior(batch[x], y, z))
    && (forall x, y, z :: 0 <= x < n && 0 <= y < maxFrames && 0 <= z < maxPhonemes ==>
          c.mask[x, y, z] == Valid(batch[x], samplesToFrames(|batch[x].audio|), y, z))
  }
}
