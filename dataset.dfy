/** The concatenated training dataset (pyfoal/data/dataset.py): global item
    indices map to (dataset, local index), and items are grouped into
    buckets of similar length. A dataset is represented by the frame lengths
    of its items, one per stem, in stem order. */
module Dataset {
  import opened Common

  /** The length of one dataset of the list, as `len(dataset)`. */
  function Sizes(datasets: seq<seq<nat>>): (sizes: seq<nat>)
    ensures |sizes| == |datasets|
    ensures forall i :: 0 <= i < |datasets| ==> sizes[i] == |datasets[i]|
  {
    seq(|datasets|, i requires 0 <= i < |datasets| => |datasets[i]|)
  }

  function Total(sizes: seq<nat>): nat
  {
    if |sizes| == 0 then 0 else sizes[0] + Total(sizes[1..])
  }

  /** The number of items in the datasets before dataset k. */
  function Prefix(sizes: seq<nat>, k: nat): nat
    requires k <= |sizes|
  {
    Total(sizes[..k])
  }

  /** All items, dataset after dataset. */
  function Flatten(datasets: seq<seq<nat>>): (items: seq<nat>)
  {
    if |datasets| == 0 then [] else datasets[0] + Flatten(datasets[1..])
  }

  /** `Dataset.__len__`: the item count of the concatenation. */
  function Len(datasets: seq<seq<nat>>): (n: nat)
    ensures n == |Flatten(datasets)|
  {
    FlattenLength(datasets);
    Total(Sizes(datasets))
  }

  lemma {:induction false} FlattenLength(datasets: seq<seq<nat>>)
    ensures |Flatten(datasets)| == Total(Sizes(datasets))
  {
    if |datasets| > 0 {
      FlattenLength(datasets[1..]);
      assert Sizes(datasets)[1..] == Sizes(datasets[1..]);
    }
  }

  /** A reference definition of the lookup: skip whole datasets while the
      index lies past them. Running out of datasets is an IndexError. */
  function Locate(sizes: seq<nat>, index: int): (r: Result<(int, nat)>)
    ensures r.Ok? ==> r.value.1 < |sizes|
    ensures r.Err? ==> r.error == IndexError
  {
    if |sizes| == 0 then Err(IndexError)
    else if index < sizes[0] then Ok((index, 0))
    else match Locate(sizes[1..], index - sizes[0])
      case Ok((local, i)) => Ok((local, i + 1))
      case Err(e) => Err(e)
  }

  /** Locate on the datasets from position i onward, renumbered from 0. */
  function Shift(r: Result<(int, nat)>, i: nat): Result<(int, nat)>
  {
    match r
    case Ok((local, k)) => Ok((local, k + i))
    case Err(e) => Err(e)
  }

  /** `Dataset.get_dataset`: walks the datasets, growing the cumulative
      upper bound, until the index falls below it. */
  method GetDataset(sizes: seq<nat>, index: int) returns (r: Result<(int, nat)>)
    ensures r == Locate(sizes, index)
  {
    var i := 0;
    if |sizes| == 0 {
      return Err(IndexError);
    }
    var size := sizes[0];
    var upperBound := size;
    while index >= upperBound
      invariant 0 <= i < |sizes| && size == sizes[i]
      invariant upperBound == Prefix(sizes, i) + size
      invariant Locate(sizes, index) == Shift(Locate(sizes[i..], index - Prefix(sizes, i)), i)
      decreases |sizes| - i
    {
      LocateStep(sizes, i, index - Prefix(sizes, i));
      PrefixStep(sizes, i);
      i := i + 1;
      if i >= |sizes| {
        assert sizes[i..] == [];
        return Err(IndexError);
      }
      size := sizes[i];
      upperBound := upperBound + size;
    }
    return Ok((index - (upperBound - size), i));
  }

  lemma LocateStep(sizes: seq<nat>, i: nat, x: int)
    requires i < |sizes| && x >= sizes[i]
    ensures Shift(Locate(sizes[i..], x), i) == Shift(Locate(sizes[i + 1..], x - sizes[i]), i + 1)
  {
    assert sizes[i..][1..] == sizes[i + 1..];
  }

  lemma PrefixStep(sizes: seq<nat>, i: nat)
    requires i < |sizes|
    ensures Prefix(sizes, i + 1) == Prefix(sizes, i) + sizes[i]
  {
    TotalAppend(sizes[..i], [sizes[i]]);
    assert sizes[..i + 1] == sizes[..i] + [sizes[i]];
  }

  lemma {:induction false} TotalAppend(a: seq<nat>, b: seq<nat>)
    ensures Total(a + b) == Total(a) + Total(b)
  {
    if |a| > 0 {
      TotalAppend(a[1..], b);
      assert (a + b)[1..] == a[1..] + b;
    } else {
      assert a + b == b;
    }
  }

  /** The lookup succeeds exactly for indices below the total length. */
  lemma {:induction false} LocateSucceeds(sizes: seq<nat>, index: int)
    ensures Locate(sizes, index).Ok? <==> |sizes| > 0 && index < Total(sizes)
  {
    if |sizes| > 0 && index >= sizes[0] {
      LocateSucceeds(sizes[1..], index - sizes[0]);
    }
  }

  /** Prefix sums seen from the second dataset on. */
  lemma PrefixCons(sizes: seq<nat>, k: nat)
    requires 1 <= k <= |sizes|
    ensures Prefix(sizes, k) == sizes[0] + Prefix(sizes[1..], k - 1)
  {
    assert sizes[..k][1..] == sizes[1..][..k - 1];
  }

  /** A successful lookup names the first dataset whose cumulative length
      exceeds the index, and makes the index local to it. */
  lemma {:induction false} LocateFirst(sizes: seq<nat>, index: int)
    requires Locate(sizes, index).Ok?
    ensures var (local, i) := Locate(sizes, index).value;
      && index < Prefix(sizes, i + 1)
      && (forall k :: 1 <= k <= i ==> Prefix(sizes, k) <= index)
      && local == index - Prefix(sizes, i)
  {
    var (local, i) := Locate(sizes, index).value;
    if index < sizes[0] {
      assert sizes[..1] == [sizes[0]];
    } else {
      var tail := sizes[1..];
      LocateFirst(tail, index - sizes[0]);
      assert Locate(tail, index - sizes[0]) == Ok((local, i - 1));
      PrefixCons(sizes, i + 1);
      PrefixCons(sizes, i);
      forall k | 1 <= k <= i ensures Prefix(sizes, k) <= index {
        PrefixCons(sizes, k);
      }
    }
  }

  /** For a non-negative index the local index lies inside its dataset. */
  lemma LocateLocal(sizes: seq<nat>, index: int)
    requires 0 <= index && Locate(sizes, index).Ok?
    ensures var (local, i) := Locate(sizes, index).value;
      0 <= local < sizes[i]
  {
    var (local, i) := Locate(sizes, index).value;
    LocateFirst(sizes, index);
    PrefixStep(sizes, i);
  }

  /** Item j of dataset i, at global index Prefix(i) + j, is found there. */
  lemma {:induction false} LocateInverse(sizes: seq<nat>, i: nat, j: int)
    requires i < |sizes| && 0 <= j < sizes[i]
    ensures Locate(sizes, Prefix(sizes, i) + j) == Ok((j, i))
  {
    if i > 0 {
      var tail := sizes[1..];
      assert sizes[..i][1..] == tail[..i - 1];
      LocateInverse(tail, i - 1, j);
    }
  }

  /** The item found for a global index is that index of the flattened list. */
  lemma {:induction false} LocateFlatten(datasets: seq<seq<nat>>, g: int)
    requires 0 <= g < |Flatten(datasets)|
    ensures Locate(Sizes(datasets), g).Ok?
    ensures var (local, i) := Locate(Sizes(datasets), g).value;
      0 <= local < |datasets[i]| && Flatten(datasets)[g] == datasets[i][local]
  {
    var sizes := Sizes(datasets);
    assert |datasets| > 0;
    if g >= |datasets[0]| {
      assert sizes[1..] == Sizes(datasets[1..]);
      LocateFlatten(datasets[1..], g - |datasets[0]|);
    }
  }

  /** The length list built in `buckets` by looking up every global index:
      the items' lengths in dataset order. */
  method ItemLengths(datasets: seq<seq<nat>>) returns (lengths: seq<nat>)
    ensures lengths == Flatten(datasets)
  {
    var sizes := Sizes(datasets);
    var n := Len(datasets);
    lengths := [];
    var g := 0;
    while g < n
      invariant 0 <= g <= n && lengths == Flatten(datasets)[..g]
    {
      LocateFlatten(datasets, g);
      var r := GetDataset(sizes, g);
      var (local, i) := r.value;
      lengths := lengths + [datasets[i][local]];
      g := g + 1;
    }
    assert Flatten(datasets)[..n] == Flatten(datasets);
  }

  /** A bucket: the length of its last item, and its item indices. */
  datatype Bucket = Bucket(maxLength: nat, items: seq<nat>)

  /** `order` lists the item indices by ascending length (what
      `np.argsort(lengths)` returns; ties may come in any order). */
  ghost predicate SortsBy(order: seq<nat>, lengths: seq<nat>)
  {
    && IsPermutation(order, |lengths|)
    && SortedBy(order, lengths)
  }

  /** `[s[i:i + size] for i in range(0, len(s), size)]`. */
  function Chunks(s: seq<nat>, size: nat): (chunks: seq<seq<nat>>)
    requires size > 0
    ensures forall k :: 0 <= k < |chunks| ==> 1 <= |chunks[k]| <= size
    decreases |s|
  {
    if |s| == 0 then []
    else if |s| <= size then [s]
    else [s[..size]] + Chunks(s[size..], size)
  }

  function Concat(chunks: seq<seq<nat>>): seq<nat>
  {
    if |chunks| == 0 then [] else chunks[0] + Concat(chunks[1..])
  }

  /** Concatenating the chunks gives s back; every chunk is non-empty and
      every chunk but the last has exactly `size` elements. */
  lemma {:induction false} ChunksLaws(s: seq<nat>, size: nat)
    requires size > 0
    ensures Concat(Chunks(s, size)) == s
    ensures forall k :: 0 <= k < |Chunks(s, size)| - 1 ==> |Chunks(s, size)[k]| == size
    decreases |s|
  {
    if |s| > size {
      var rest := s[size..];
      ChunksLaws(rest, size);
      var c := Chunks(s, size);
      assert c[1..] == Chunks(rest, size);
      assert forall k :: 1 <= k < |c| ==> c[k] == Chunks(rest, size)[k - 1];
      assert s[..size] + rest == s;
    }
  }

  /** The chunk's tag: the length of its last item. */
  function Tagged(lengths: seq<nat>, bucket: seq<nat>): (b: Bucket)
    requires |bucket| > 0 && Last(bucket) < |lengths|
    ensures b.items == bucket
  {
    Bucket(lengths[Last(bucket)], bucket)
  }

  lemma {:induction false} ChunksBelow(s: seq<nat>, size: nat, n: nat)
    requires size > 0 && Below(s, n)
    ensures forall k :: 0 <= k < |Chunks(s, size)| ==> Below(Chunks(s, size)[k], n)
    decreases |s|
  {
    if |s| > size {
      ChunksBelow(s[size..], size, n);
      var c := Chunks(s, size);
      assert forall k :: 1 <= k < |c| ==> c[k] == Chunks(s[size..], size)[k - 1];
    }
  }

  /** The buckets of a length order: its chunks of `size`, each tagged. */
  function TaggedChunks(lengths: seq<nat>, order: seq<nat>, size: nat): (buckets: seq<Bucket>)
    requires size > 0 && Below(order, |lengths|)
    ensures |buckets| == |Chunks(order, size)|
    ensures forall k :: 0 <= k < |buckets| ==> buckets[k].items == Chunks(order, size)[k]
  {
    var chunks := Chunks(order, size);
    ChunksBelow(order, size, |lengths|);
    seq(|chunks|, k requires 0 <= k < |chunks| => Tagged(lengths, chunks[k]))
  }

  /** Item positions sorted by length. */
  ghost predicate SortedBy(s: seq<nat>, lengths: seq<nat>)
  {
    && Below(s, |lengths|)
    && forall a, b {:trigger lengths[s[a]], lengths[s[b]]} :: 0 <= a < b < |s| ==> lengths[s[a]] <= lengths[s[b]]
  }

  /** No item of the chunk is longer than its last. */
  ghost predicate LastLongest(chunk: seq<nat>, lengths: seq<nat>)
  {
    && |chunk| > 0 && Below(chunk, |lengths|)
    && forall m :: 0 <= m < |chunk| ==> lengths[chunk[m]] <= lengths[Last(chunk)]
  }

  /** Each chunk of a sorted order is sorted, so its last item is longest. */
  lemma {:induction false} ChunkLastLongest(s: seq<nat>, size: nat, lengths: seq<nat>)
    requires size > 0 && SortedBy(s, lengths)
    ensures forall k :: 0 <= k < |Chunks(s, size)| ==> LastLongest(Chunks(s, size)[k], lengths)
    decreases |s|
  {
    if |s| > size {
      var rest := s[size..];
      assert SortedBy(rest, lengths) by {
        assert forall k :: 0 <= k < |rest| ==> rest[k] == s[size + k];
      }
      ChunkLastLongest(rest, size, lengths);
      var c := Chunks(s, size);
      assert forall k :: 1 <= k < |c| ==> c[k] == Chunks(rest, size)[k - 1];
      assert c[0] == s[..size];
    } else if |s| > 0 {
      assert Chunks(s, size) == [s];
    }
  }

  /** Neighbouring chunks of a sorted order: the later one's last item is
      at least as long. */
  ghost predicate TagsGrow(a: seq<nat>, b: seq<nat>, lengths: seq<nat>)
  {
    && |a| > 0 && |b| > 0 && Last(a) < |lengths| && Last(b) < |lengths|
    && lengths[Last(a)] <= lengths[Last(b)]
  }

  lemma {:induction false} ChunkTagsGrow(s: seq<nat>, size: nat, lengths: seq<nat>)
    requires size > 0 && SortedBy(s, lengths)
    ensures forall k :: 0 <= k < |Chunks(s, size)| - 1 ==>
              TagsGrow(Chunks(s, size)[k], Chunks(s, size)[k + 1], lengths)
    decreases |s|
  {
    if |s| > size {
      var rest := s[size..];
      SortedBySuffix(s, size, lengths);
      ChunkTagsGrow(rest, size, lengths);
      var c := Chunks(s, size);
      var cr := Chunks(rest, size);
      assert c == [s[..size]] + cr;
      forall k | 0 <= k < |c| - 1
        ensures TagsGrow(c[k], c[k + 1], lengths)
      {
        if k == 0 {
          FirstTagsGrow(s, size, lengths);
        } else {
          assert c[k] == cr[k - 1] && c[k + 1] == cr[k];
        }
      }
    }
  }

  /** A suffix of a sorted order is sorted. */
  lemma SortedBySuffix(s: seq<nat>, i: nat, lengths: seq<nat>)
    requires i <= |s| && SortedBy(s, lengths)
    ensures SortedBy(s[i..], lengths)
  {
    assert forall k :: 0 <= k < |s[i..]| ==> s[i..][k] == s[i + k];
  }

  /** In a sorted order the first chunk's tag is at most the second's. */
  lemma FirstTagsGrow(s: seq<nat>, size: nat, lengths: seq<nat>)
    requires size > 0 && |s| > size && SortedBy(s, lengths)
    ensures |Chunks(s, size)| >= 2
    ensures TagsGrow(Chunks(s, size)[0], Chunks(s, size)[1], lengths)
  {
    var rest := s[size..];
    var c := Chunks(s, size);
    var cr := Chunks(rest, size);
    assert c == [s[..size]] + cr;
    var j := |cr[0]|;
    assert cr[0] == rest[..j];
    assert Last(c[0]) == s[size - 1] && Last(c[1]) == s[size + j - 1];
  }

  function Last(s: seq<nat>): nat
    requires |s| > 0
  {
    s[|s| - 1]
  }

  /** `len(self) // BUCKETS`, the bucket size. */
  function BucketSize(datasets: seq<seq<nat>>, bucketCount: nat): nat
    requires bucketCount > 0
  {
    Len(datasets) / bucketCount
  }

  /** `Dataset.buckets`: chunks of `len // BUCKETS` indices of the
      length-sorted order, each tagged with its last item's length. A
      chunk size of 0 makes `range` raise ValueError. */
  method Buckets(datasets: seq<seq<nat>>, bucketCount: nat, order: seq<nat>)
    returns (r: Result<seq<Bucket>>)
    requires SortsBy(order, Flatten(datasets))
    ensures bucketCount == 0 ==> r == Err(ZeroDivisionError)
    ensures bucketCount > 0 && BucketSize(datasets, bucketCount) == 0 ==> r == Err(ValueError)
    ensures bucketCount > 0 && BucketSize(datasets, bucketCount) > 0 ==>
      r == Ok(TaggedChunks(Flatten(datasets), order, BucketSize(datasets, bucketCount)))
  {
    if bucketCount == 0 {
      return Err(ZeroDivisionError);
    }
    var size := BucketSize(datasets, bucketCount);
    var lengths := ItemLengths(datasets);
    if size == 0 {
      return Err(ValueError);
    }
    return Ok(TaggedChunks(lengths, order, size));
  }

  function Items(buckets: seq<Bucket>): (items: seq<seq<nat>>)
    ensures |items| == |buckets| && forall k :: 0 <= k < |buckets| ==> items[k] == buckets[k].items
  {
    seq(|buckets|, k requires 0 <= k < |buckets| => buckets[k].items)
  }

  /** The buckets list each item index exactly once, in ascending length
      order; all but the last hold exactly `size` items; each tag is the
      longest length in its bucket; tags never decrease. */
  lemma BucketsLaws(lengths: seq<nat>, order: seq<nat>, size: nat)
    requires size > 0 && SortsBy(order, lengths)
    ensures var buckets := TaggedChunks(lengths, order, size);
      && Concat(Items(buckets)) == order
      && IsPermutation(Concat(Items(buckets)), |lengths|)
      && (forall k :: 0 <= k < |buckets| - 1 ==> |buckets[k].items| == size)
      && (forall k :: 0 <= k < |buckets| ==> 1 <= |buckets[k].items| <= size)
      && (forall k, m :: 0 <= k < |buckets| && 0 <= m < |buckets[k].items| ==>
            buckets[k].items[m] < |lengths| && lengths[buckets[k].items[m]] <= buckets[k].maxLength)
      && (forall k :: 0 <= k < |buckets| - 1 ==> buckets[k].maxLength <= buckets[k + 1].maxLength)
  {
    var buckets := TaggedChunks(lengths, order, size);
    var chunks := Chunks(order, size);
    assert Items(buckets) == chunks;
    ChunksLaws(order, size);
    ChunkLastLongest(order, size, lengths);
    ChunkTagsGrow(order, size, lengths);
    forall k | 0 <= k < |buckets| ensures buckets[k].maxLength == lengths[Last(chunks[k])] {
    }
    forall k, m | 0 <= k < |buckets| && 0 <= m < |buckets[k].items|
      ensures buckets[k].items[m] < |lengths| && lengths[buckets[k].items[m]] <= buckets[k].maxLength
    {
      assert LastLongest(chunks[k], lengths);
    }
    forall k | 0 <= k < |buckets| - 1
      ensures buckets[k].maxLength <= buckets[k + 1].maxLength
    {
      assert TagsGrow(chunks[k], chunks[k + 1], lengths);
    }
  }
}
