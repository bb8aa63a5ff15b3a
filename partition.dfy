/** Train/valid/test partitions (pyfoal/partition/core.py). The files found
    on disk are given, and so is the shuffle: because the random seed is
    reset before every dataset, `random.shuffle` on a list of length n
    always applies the same permutation `shuffle(n)`. */
module Partition {
  import opened Common
  import opened Order

  datatype Split = Split(train: seq<string>, valid: seq<string>, test: seq<string>)

  /** `int(.9 * n)`, in exact arithmetic. */
  function Ninety(n: nat): nat
  {
    9 * n / 10
  }

  /** `int(.95 * n)`, in exact arithmetic. */
  function NinetyFive(n: nat): nat
  {
    95 * n / 100
  }

  /** The split points are ordered and within the list. */
  lemma SplitPoints(n: nat)
    ensures Ninety(n) <= NinetyFive(n) <= n
  {
  }

  /** A shuffle for every length. */
  ghost predicate Shuffles(shuffle: nat -> seq<nat>)
  {
    forall n :: IsPermutation(shuffle(n), n)
  }

  /** `random.shuffle(s)` with the permutation it applies. */
  function Shuffle(s: seq<string>, perm: seq<nat>): (r: seq<string>)
    requires IsPermutation(perm, |s|)
    ensures multiset(r) == multiset(s) && |r| == |s|
  {
    PermuteMultiset(s, perm);
    Permute(s, perm)
  }

  /** `arctic`: the sorted stems are shuffled, the first 90% (rounded
      down) become the sorted test list, the rest the sorted valid list,
      and train is empty. */
  function Arctic(stems: seq<string>, shuffle: nat -> seq<nat>): (r: Split)
    requires Shuffles(shuffle)
  {
    var shuffled := Shuffle(Sort(stems), shuffle(|stems|));
    var split := Ninety(|stems|);
    Split([], Sort(shuffled[split..]), Sort(shuffled[..split]))
  }

  ghost predicate Unique(s: seq<string>)
  {
    forall i, j :: 0 <= i < j < |s| ==> s[i] != s[j]
  }

  /** valid and test share out the stems: sizes n − ⌊0.9n⌋ and ⌊0.9n⌋
      (test the larger from two stems on), both sorted, together exactly
      the stems, and disjoint when the stems are distinct. */
  lemma ArcticLaws(stems: seq<string>, shuffle: nat -> seq<nat>)
    requires Shuffles(shuffle)
    ensures var r := Arctic(stems, shuffle);
      && r.train == []
      && |r.test| == Ninety(|stems|) && |r.valid| == |stems| - Ninety(|stems|)
      && (|stems| >= 2 ==> |r.test| >= |r.valid|)
      && Sorted(r.valid) && Sorted(r.test)
      && multiset(r.valid) + multiset(r.test) == multiset(stems)
      && (Unique(stems) ==> forall x :: !(x in r.valid && x in r.test))
  {
    var shuffled := Shuffle(Sort(stems), shuffle(|stems|));
    var split := Ninety(|stems|);
    SortedHalves(shuffled, split);
    if Unique(stems) {
      UniqueDisjoint(stems, Sort(shuffled[split..]), Sort(shuffled[..split]));
    }
  }

  /** Cutting a list in two and sorting each half keeps every element once. */
  lemma SortedHalves(s: seq<string>, split: nat)
    requires split <= |s|
    ensures Sorted(Sort(s[split..])) && Sorted(Sort(s[..split]))
    ensures multiset(Sort(s[split..])) + multiset(Sort(s[..split])) == multiset(s)
  {
    SortSorted(s[split..]);
    SortSorted(s[..split]);
    assert s == s[..split] + s[split..];
  }

  /** Two lists that share out a list without repeats have nothing in common. */
  lemma UniqueDisjoint(s: seq<string>, a: seq<string>, b: seq<string>)
    requires Unique(s) && multiset(a) + multiset(b) == multiset(s)
    ensures forall x :: !(x in a && x in b)
  {
    forall x | x in a && x in b
      ensures false
    {
      assert x in multiset(a) && x in multiset(b);
      assert multiset(s)[x] >= 2;
      UniqueOnce(s, x);
    }
  }

  /** In a list without repeats every element occurs at most once. */
  lemma {:induction false} UniqueOnce(s: seq<string>, x: string)
    requires Unique(s)
    ensures multiset(s)[x] <= 1
  {
    if |s| > 0 {
      var n := |s| - 1;
      assert s == s[..n] + [s[n]];
      assert Unique(s[..n]);
      UniqueOnce(s[..n], x);
      if x == s[n] {
        assert x !in s[..n];
      }
    }
  }

  /** One file of libritts: its speaker directory and its file stem. */
  datatype File = File(speaker: string, name: string)

  /** `f'{file.parent.name}/{file.stem}'`. */
  function Stem(f: File): string
  {
    f.speaker + "/" + f.name
  }

  /** `stem.split('/')[0]`: everything before the first `/`. */
  function SpeakerOf(stem: string): (r: string)
    ensures |r| <= |stem|
  {
    if |stem| == 0 || stem[0] == '/' then "" else [stem[0]] + SpeakerOf(stem[1..])
  }

  /** The speaker of a stem is its directory, a name without `/`. */
  lemma {:induction false} SpeakerOfStem(speaker: string, name: string)
    requires forall k :: 0 <= k < |speaker| ==> speaker[k] != '/'
    ensures SpeakerOf(speaker + "/" + name) == speaker
  {
    if |speaker| > 0 {
      assert (speaker + "/" + name)[1..] == speaker[1..] + "/" + name;
      SpeakerOfStem(speaker[1..], name);
      assert speaker == [speaker[0]] + speaker[1..];
    } else {
      assert speaker + "/" + name == "/" + name;
    }
  }

  function Stems(files: seq<File>): (r: seq<string>)
    ensures |r| == |files| && forall k :: 0 <= k < |files| ==> r[k] == Stem(files[k])
  {
    seq(|files|, k requires 0 <= k < |files| => Stem(files[k]))
  }

  /** `[stem for stem in stems if stem.split('/')[0] in group]`. */
  function Filter(stems: seq<string>, group: seq<string>): (r: seq<string>)
    ensures |r| <= |stems|
  {
    if |stems| == 0 then []
    else
      var last := stems[|stems| - 1];
      Filter(stems[..|stems| - 1], group) + (if SpeakerOf(last) in group then [last] else [])
  }

  /** A stem is kept exactly when it is one of the stems and its speaker
      is in the group. */
  lemma {:induction false} FilterMember(stems: seq<string>, group: seq<string>, x: string)
    ensures x in Filter(stems, group) <==> x in stems && SpeakerOf(x) in group
  {
    if |stems| > 0 {
      var n := |stems| - 1;
      FilterMember(stems[..n], group, x);
      assert stems == stems[..n] + [stems[n]];
    }
  }

  /** Filtering a sorted list keeps it sorted. */
  lemma {:induction false} FilterSorted(stems: seq<string>, group: seq<string>)
    requires Sorted(stems)
    ensures Sorted(Filter(stems, group))
  {
    if |stems| > 0 {
      var n := |stems| - 1;
      var head := Filter(stems[..n], group);
      FilterSorted(stems[..n], group);
      if SpeakerOf(stems[n]) in group {
        forall i | 0 <= i < |head|
          ensures LessEq(head[i], stems[n])
        {
          FilterMember(stems[..n], group, head[i]);
          var k :| 0 <= k < n && stems[..n][k] == head[i];
          assert stems[k] == head[i];
        }
      }
    }
  }

  /** The three groups split the speakers: every speaker of a stem is in
      exactly one of them. */
  ghost predicate Splits(stems: seq<string>, a: seq<string>, b: seq<string>, c: seq<string>)
  {
    forall k :: 0 <= k < |stems| ==>
      var x := SpeakerOf(stems[k]);
      (x in a || x in b || x in c) && !(x in a && x in b) && !(x in a && x in c) && !(x in b && x in c)
  }

  /** The split of the speakers holds for a prefix of the stems. */
  lemma SplitsPrefix(stems: seq<string>, a: seq<string>, b: seq<string>, c: seq<string>, n: nat)
    requires Splits(stems, a, b, c) && n <= |stems|
    ensures Splits(stems[..n], a, b, c)
  {
    assert forall k :: 0 <= k < n ==> stems[..n][k] == stems[k];
  }

  /** Filtering a list whose last stem is s keeps s exactly when s's
      speaker is in the group. */
  lemma FilterLast(stems: seq<string>, group: seq<string>)
    requires |stems| > 0
    ensures var n := |stems| - 1;
      multiset(Filter(stems, group))
      == multiset(Filter(stems[..n], group)) + (if SpeakerOf(stems[n]) in group then multiset{stems[n]} else multiset{})
  {
  }

  /** The last element and the rest make up the multiset of a list. */
  lemma MultisetLast<T>(s: seq<T>)
    requires |s| > 0
    ensures multiset(s) == multiset(s[..|s| - 1]) + multiset{s[|s| - 1]}
  {
    assert s == s[..|s| - 1] + [s[|s| - 1]];
  }

  /** One more stem, going to exactly one of three groups, adds itself to
      the shared-out stems. */
  lemma ShareOut<T>(a: multiset<T>, b: multiset<T>, c: multiset<T>, all: multiset<T>,
                    s: T, inA: bool, inB: bool, inC: bool)
    requires a + b + c == all
    requires (inA || inB || inC) && !(inA && inB) && !(inA && inC) && !(inB && inC)
    ensures (a + (if inA then multiset{s} else multiset{})) + (b + (if inB then multiset{s} else multiset{}))
      + (c + (if inC then multiset{s} else multiset{})) == all + multiset{s}
  {
  }

  /** Groups that split the speakers share out the stems. */
  lemma {:induction false} FilterCover(stems: seq<string>, a: seq<string>, b: seq<string>, c: seq<string>)
    requires Splits(stems, a, b, c)
    ensures multiset(Filter(stems, a)) + multiset(Filter(stems, b)) + multiset(Filter(stems, c)) == multiset(stems)
  {
    if |stems| > 0 {
      var n := |stems| - 1;
      SplitsPrefix(stems, a, b, c, n);
      FilterCover(stems[..n], a, b, c);
      FilterLast(stems, a);
      FilterLast(stems, b);
      FilterLast(stems, c);
      var s, x := stems[n], SpeakerOf(stems[n]);
      MultisetLast(stems);
      ShareOut(multiset(Filter(stems[..n], a)), multiset(Filter(stems[..n], b)), multiset(Filter(stems[..n], c)),
               multiset(stems[..n]), s, x in a, x in b, x in c);
    }
  }

  /** The speakers in `list(set(...))` order: each speaker of a file once. */
  ghost predicate ListsSpeakers(files: seq<File>, listed: seq<string>)
  {
    && Unique(listed)
    && (forall k :: 0 <= k < |files| ==> files[k].speaker in listed)
    && (forall k :: 0 <= k < |listed| ==> exists f :: 0 <= f < |files| && files[f].speaker == listed[k])
  }

  /** `libritts`: the listed speakers are shuffled and cut at
      `int(.9 S)` and `int(.95 S)`; each sorted stem goes to the part
      holding its speaker. */
  function Libritts(files: seq<File>, listed: seq<string>, shuffle: nat -> seq<nat>): (r: Split)
    requires Shuffles(shuffle)
  {
    var speakers := Shuffle(listed, shuffle(|listed|));
    var stems := Sort(Stems(files));
    var left, right := Ninety(|speakers|), NinetyFive(|speakers|);
    Split(Filter(stems, speakers[..left]), Filter(stems, speakers[left..right]), Filter(stems, speakers[right..]))
  }

  /** Every stem lands in exactly one part, each part is sorted, and a
      stem is in a part exactly when its speaker is in that part's slice
      of the shuffled speakers, so all of a speaker's stems land together. */
  lemma LibrittsLaws(files: seq<File>, listed: seq<string>, shuffle: nat -> seq<nat>)
    requires Shuffles(shuffle) && ListsSpeakers(files, listed)
    requires forall f :: 0 <= f < |files| ==> forall k :: 0 <= k < |files[f].speaker| ==> files[f].speaker[k] != '/'
    ensures var r := Libritts(files, listed, shuffle);
      var speakers := Shuffle(listed, shuffle(|listed|));
      var left, right := Ninety(|listed|), NinetyFive(|listed|);
      && multiset(r.train) + multiset(r.valid) + multiset(r.test) == multiset(Stems(files))
      && Sorted(r.train) && Sorted(r.valid) && Sorted(r.test)
      && (forall x :: x in r.train <==> x in Stems(files) && SpeakerOf(x) in speakers[..left])
      && (forall x :: x in r.valid <==> x in Stems(files) && SpeakerOf(x) in speakers[left..right])
      && (forall x :: x in r.test <==> x in Stems(files) && SpeakerOf(x) in speakers[right..])
  {
    var speakers := Shuffle(listed, shuffle(|listed|));
    var stems := Sort(Stems(files));
    var left, right := Ninety(|speakers|), NinetyFive(|speakers|);
    var a, b, c := speakers[..left], speakers[left..right], speakers[right..];
    SortSorted(Stems(files));
    FilterSorted(stems, a);
    FilterSorted(stems, b);
    FilterSorted(stems, c);
    ShuffleUnique(listed, shuffle(|listed|));
    LibrittsSplits(files, listed, speakers, stems, left, right);
    FilterCover(stems, a, b, c);
    forall x
      ensures (x in Filter(stems, a) <==> x in Stems(files) && SpeakerOf(x) in a)
           && (x in Filter(stems, b) <==> x in Stems(files) && SpeakerOf(x) in b)
           && (x in Filter(stems, c) <==> x in Stems(files) && SpeakerOf(x) in c)
    {
      assert x in stems <==> x in multiset(stems);
      FilterMember(stems, a, x);
      FilterMember(stems, b, x);
      FilterMember(stems, c, x);
    }
  }

  /** The three slices of the shuffled speakers split the sorted stems. */
  lemma LibrittsSplits(files: seq<File>, listed: seq<string>, speakers: seq<string>, stems: seq<string>, left: nat, right: nat)
    requires ListsSpeakers(files, listed) && Unique(speakers) && multiset(speakers) == multiset(listed)
    requires forall f :: 0 <= f < |files| ==> forall k :: 0 <= k < |files[f].speaker| ==> files[f].speaker[k] != '/'
    requires multiset(stems) == multiset(Stems(files)) && left <= right <= |speakers|
    ensures Splits(stems, speakers[..left], speakers[left..right], speakers[right..])
  {
    forall k | 0 <= k < |stems|
      ensures var x := SpeakerOf(stems[k]);
        var a, b, c := speakers[..left], speakers[left..right], speakers[right..];
        (x in a || x in b || x in c) && !(x in a && x in b) && !(x in a && x in c) && !(x in b && x in c)
    {
      assert stems[k] in multiset(Stems(files));
      var f :| 0 <= f < |files| && Stems(files)[f] == stems[k];
      SpeakerOfStem(files[f].speaker, files[f].name);
      SpeakerListed(listed, speakers, files[f].speaker);
      SlicesSplit(speakers, left, right, files[f].speaker);
    }
  }

  /** Shuffling a list without repeats leaves it without repeats. */
  lemma ShuffleUnique(s: seq<string>, perm: seq<nat>)
    requires IsPermutation(perm, |s|) && Unique(s)
    ensures Unique(Shuffle(s, perm))
  {
    PermutationElements(perm, |s|);
  }

  /** A listed speaker is among the shuffled speakers. */
  lemma SpeakerListed(listed: seq<string>, speakers: seq<string>, x: string)
    requires multiset(speakers) == multiset(listed) && x in listed
    ensures x in speakers
  {
    assert x in multiset(listed);
  }

  /** A speaker of a list without repeats lies in exactly one of the slices
      `[:left]`, `[left:right]` and `[right:]`. */
  lemma SlicesSplit(speakers: seq<string>, left: nat, right: nat, x: string)
    requires left <= right <= |speakers| && Unique(speakers) && x in speakers
    ensures var a, b, c := speakers[..left], speakers[left..right], speakers[right..];
      (x in a || x in b || x in c) && !(x in a && x in b) && !(x in a && x in c) && !(x in b && x in c)
  {
    var i :| 0 <= i < |speakers| && speakers[i] == x;
    forall j | 0 <= j < |speakers| && speakers[j] == x
      ensures j == i
    {
    }
    if i < left {
      assert speakers[..left][i] == x;
    } else if i < right {
      assert speakers[left..right][i - left] == x;
    } else {
      assert speakers[right..][i - right] == x;
    }
  }

  /** The two datasets the partitioner knows. */
  function PartitionDataset(name: string, arcticStems: seq<string>, librittsFiles: seq<File>,
                            librittsSpeakers: seq<string>, shuffle: nat -> seq<nat>): (r: Result<Split>)
    requires Shuffles(shuffle)
    ensures r.Err? <==> name != "arctic" && name != "libritts"
    ensures r.Err? ==> r.error == ValueError
    ensures name == "arctic" ==> r == Ok(Arctic(arcticStems, shuffle))
    ensures name == "libritts" ==> r == Ok(Libritts(librittsFiles, librittsSpeakers, shuffle))
  {
    if name == "arctic" then Ok(Arctic(arcticStems, shuffle))
    else if name == "libritts" then Ok(Libritts(librittsFiles, librittsSpeakers, shuffle))
    else Err(ValueError)
  }

  /** A dataset name the partitioner knows. */
  predicate Known(name: string)
  {
    name == "arctic" || name == "libritts"
  }

  /** `saved` holds, in order, the partitions of the first |saved| names. */
  ghost predicate SavedAs(saved: seq<(string, Split)>, names: seq<string>, arcticStems: seq<string>,
                          librittsFiles: seq<File>, librittsSpeakers: seq<string>, shuffle: nat -> seq<nat>)
    requires Shuffles(shuffle)
  {
    |saved| <= |names| && forall k :: 0 <= k < |saved| ==>
      saved[k].0 == names[k]
      && PartitionDataset(names[k], arcticStems, librittsFiles, librittsSpeakers, shuffle) == Ok(saved[k].1)
  }

  /** Saving the next name's partition keeps `saved` in step with the names. */
  lemma SavedAppend(saved: seq<(string, Split)>, names: seq<string>, arcticStems: seq<string>,
                    librittsFiles: seq<File>, librittsSpeakers: seq<string>, shuffle: nat -> seq<nat>, p: Split)
    requires Shuffles(shuffle) && SavedAs(saved, names, arcticStems, librittsFiles, librittsSpeakers, shuffle)
    requires |saved| < |names|
    requires PartitionDataset(names[|saved|], arcticStems, librittsFiles, librittsSpeakers, shuffle) == Ok(p)
    ensures SavedAs(saved + [(names[|saved|], p)], names, arcticStems, librittsFiles, librittsSpeakers, shuffle)
  {
    var next := saved + [(names[|saved|], p)];
    forall k | 0 <= k < |next|
      ensures next[k].0 == names[k]
      ensures PartitionDataset(names[k], arcticStems, librittsFiles, librittsSpeakers, shuffle) == Ok(next[k].1)
    {
      if k < |saved| {
        assert next[k] == saved[k];
      } else {
        assert k == |saved| && next[k] == (names[|saved|], p);
      }
    }
  }

  /** `datasets`: partitions each named dataset in turn and saves it; the
      first unknown name raises ValueError after the earlier ones have
      been saved. The saved partitions are returned in order. */
  method Datasets(names: seq<string>, arcticStems: seq<string>, librittsFiles: seq<File>,
                  librittsSpeakers: seq<string>, shuffle: nat -> seq<nat>)
    returns (saved: seq<(string, Split)>, e: Option<Error>)
    requires Shuffles(shuffle)
    ensures e.None? <==> forall k :: 0 <= k < |names| ==> Known(names[k])
    ensures e.Some? ==> e.value == ValueError && |saved| < |names| && !Known(names[|saved|])
    ensures e.None? ==> |saved| == |names|
    ensures SavedAs(saved, names, arcticStems, librittsFiles, librittsSpeakers, shuffle)
  {
    saved := [];
    var i := 0;
    while i < |names|
      invariant 0 <= i <= |names| && |saved| == i
      invariant forall k :: 0 <= k < i ==> Known(names[k])
      invariant SavedAs(saved, names, arcticStems, librittsFiles, librittsSpeakers, shuffle)
    {
      var partition := PartitionDataset(names[i], arcticStems, librittsFiles, librittsSpeakers, shuffle);
      if partition.Err? {
        return saved, Some(partition.error);
      }
      SavedAppend(saved, names, arcticStems, librittsFiles, librittsSpeakers, shuffle, partition.value);
      saved := saved + [(names[i], partition.value)];
      i := i + 1;
    }
    e := None;
  }
}
