/** Frame-budgeted batch sampling (pyfoal/data/sampler.py). The random
    permutations of `torch.randperm` are a parameter: a function of the
    generator seed, the number of earlier draws and the length. */
module Sampler {
  import opened Common
  import opened Dataset

  /** Every draw is a permutation of its length. */
  ghost predicate Permutations(randperm: (int, nat, nat) -> seq<nat>)
  {
    forall seed: int, k: nat, n: nat :: IsPermutation(randperm(seed, k, n), n)
  }

  /** `MAX_FRAMES // max_length`; a batch size of 0 makes `range` raise. */
  function BatchSize(maxFrames: nat, maxLength: nat): (r: Result<nat>)
    ensures r.Ok? ==> r.value > 0 && r.value * maxLength <= maxFrames
    ensures r.Ok? <==> 0 < maxLength <= maxFrames
    ensures r.Err? ==> r.error == (if maxLength == 0 then ZeroDivisionError else ValueError)
  {
    if maxLength == 0 then Err(ZeroDivisionError)
    else if maxFrames / maxLength == 0 then Err(ValueError)
    else Ok(maxFrames / maxLength)
  }

  /** The batches of the first n buckets, before the final shuffle: each
      bucket is shuffled by its own draw and cut into chunks of its size. */
  function BucketBatches(seed: int, buckets: seq<Bucket>, maxFrames: nat,
                         randperm: (int, nat, nat) -> seq<nat>, n: nat): (r: Result<seq<seq<nat>>>)
    requires Permutations(randperm) && n <= |buckets|
  {
    if n == 0 then Ok([])
    else match BucketBatches(seed, buckets, maxFrames, randperm, n - 1)
      case Err(e) => Err(e)
      case Ok(prior) =>
        var bucket := buckets[n - 1];
        var perm := randperm(seed, n - 1, |bucket.items|);
        PermutationBelow(perm, |bucket.items|);
        match BatchSize(maxFrames, bucket.maxLength)
        case Err(e) => Err(e)
        case Ok(size) => Ok(prior + Chunks(Permute(bucket.items, perm), size))
  }

  /** The result of `batch` for one generator seed. */
  function Batches(seed: int, buckets: seq<Bucket>, maxFrames: nat,
                   randperm: (int, nat, nat) -> seq<nat>): (r: Result<seq<seq<nat>>>)
    requires Permutations(randperm)
  {
    match BucketBatches(seed, buckets, maxFrames, randperm, |buckets|)
    case Err(e) => Err(e)
    case Ok(batches) =>
      var perm := randperm(seed, |buckets|, |batches|);
      PermutationBelow(perm, |batches|);
      Ok(Permute(batches, perm))
  }

  /** One more bucket, after the earlier ones succeeded: its batch size
      decides between an error and its shuffled chunks. */
  lemma BucketBatchesNext(seed: int, buckets: seq<Bucket>, maxFrames: nat,
                          randperm: (int, nat, nat) -> seq<nat>, k: nat)
    requires Permutations(randperm) && k < |buckets|
    requires BucketBatches(seed, buckets, maxFrames, randperm, k).Ok?
    ensures var perm := randperm(seed, k, |buckets[k].items|);
      && Below(perm, |buckets[k].items|)
      && var size := BatchSize(maxFrames, buckets[k].maxLength);
      && (size.Err? ==> BucketBatches(seed, buckets, maxFrames, randperm, k + 1) == Err(size.error))
      && (size.Ok? ==>
            BucketBatches(seed, buckets, maxFrames, randperm, k + 1)
            == Ok(BucketBatches(seed, buckets, maxFrames, randperm, k).value
                  + Chunks(Permute(buckets[k].items, perm), size.value)))
  {
    PermutationBelow(randperm(seed, k, |buckets[k].items|), |buckets[k].items|);
  }

  /** Once a bucket has failed, later buckets do not change the error. */
  lemma {:induction false} ErrorPersists(seed: int, buckets: seq<Bucket>, maxFrames: nat,
                                         randperm: (int, nat, nat) -> seq<nat>, k: nat, n: nat)
    requires Permutations(randperm) && k <= n <= |buckets|
    requires BucketBatches(seed, buckets, maxFrames, randperm, k).Err?
    ensures BucketBatches(seed, buckets, maxFrames, randperm, n)
         == BucketBatches(seed, buckets, maxFrames, randperm, k)
    decreases n - k
  {
    if k < n {
      ErrorPersists(seed, buckets, maxFrames, randperm, k, n - 1);
    }
  }

  lemma {:induction false} ConcatAppend(a: seq<seq<nat>>, b: seq<seq<nat>>)
    ensures Concat(a + b) == Concat(a) + Concat(b)
  {
    if |a| > 0 {
      assert (a + b)[1..] == a[1..] + b;
      ConcatAppend(a[1..], b);
    } else {
      assert a + b == b;
    }
  }

  /** Taking batch i out of the list takes its items out of the concatenation. */
  lemma ConcatRemove(b: seq<seq<nat>>, i: nat)
    requires i < |b|
    ensures multiset(Concat(b)) == multiset(b[i]) + multiset(Concat(b[..i] + b[i + 1..]))
  {
    var x, front, back := b[i], b[..i], b[i + 1..];
    calc {
      multiset(Concat(b));
    == { SplitAt(b, i); ConcatAppend(front, [x] + back); ConcatCons(x, back); }
      multiset(Concat(front) + (x + Concat(back)));
    ==
      multiset(x) + (multiset(Concat(front)) + multiset(Concat(back)));
    == { ConcatAppend(front, back); }
      multiset(x) + multiset(Concat(front + back));
    }
  }

  lemma ConcatCons(x: seq<nat>, back: seq<seq<nat>>)
    ensures Concat([x] + back) == x + Concat(back)
  {
    assert ([x] + back)[1..] == back;
  }

  /** Lists holding the same batches hold the same items. */
  lemma {:induction false} ConcatSameMultiset(a: seq<seq<nat>>, b: seq<seq<nat>>)
    requires multiset(a) == multiset(b)
    ensures multiset(Concat(a)) == multiset(Concat(b))
    decreases |a|
  {
    if |a| > 0 {
      var x := a[0];
      assert x in multiset(b);
      var i :| 0 <= i < |b| && b[i] == x;
      var b' := b[..i] + b[i + 1..];
      RemoveAt(b, i);
      assert a == [x] + a[1..];
      MultisetCancel(multiset(a[1..]), multiset(b'), x);
      ConcatSameMultiset(a[1..], b');
      ConcatRemove(b, i);
    }
  }

  /** Each chunk's items are among the chunked items. */
  lemma {:induction false} ChunkWithin(c: seq<seq<nat>>, k: nat)
    requires k < |c|
    ensures multiset(c[k]) <= multiset(Concat(c))
  {
    if k > 0 {
      ChunkWithin(c[1..], k - 1);
    }
  }

  /** The batches of the first n buckets hold exactly those buckets' items. */
  lemma {:induction false} BucketBatchesCover(seed: int, buckets: seq<Bucket>, maxFrames: nat,
                                              randperm: (int, nat, nat) -> seq<nat>, n: nat)
    requires Permutations(randperm) && n <= |buckets|
    requires BucketBatches(seed, buckets, maxFrames, randperm, n).Ok?
    ensures multiset(Concat(BucketBatches(seed, buckets, maxFrames, randperm, n).value))
         == multiset(Concat(Items(buckets[..n])))
  {
    if n > 0 {
      var bucket := buckets[n - 1];
      var shuffled := BucketStep(seed, buckets, maxFrames, randperm, n);
      BucketBatchesCover(seed, buckets, maxFrames, randperm, n - 1);
      var prior := BucketBatches(seed, buckets, maxFrames, randperm, n - 1).value;
      var chunks := Chunks(shuffled, BatchSize(maxFrames, bucket.maxLength).value);
      var earlier := Items(buckets[..n - 1]);
      calc {
        multiset(Concat(BucketBatches(seed, buckets, maxFrames, randperm, n).value));
      == { ConcatAppend(prior, chunks); }
        multiset(Concat(prior) + Concat(chunks));
      == { ChunksLaws(shuffled, BatchSize(maxFrames, bucket.maxLength).value); }
        multiset(Concat(earlier)) + multiset(bucket.items);
      == { ConcatAppend(earlier, [bucket.items]); ConcatSingle(bucket.items); }
        multiset(Concat(earlier + [bucket.items]));
      == { ItemsPrefix(buckets, n); }
        multiset(Concat(Items(buckets[..n])));
      }
    }
  }

  lemma ConcatSingle(x: seq<nat>)
    ensures Concat([x]) == x
  {
    assert [x][1..] == [];
  }

  /** The items of one more bucket: those of the buckets before it, then its own. */
  lemma ItemsPrefix(buckets: seq<Bucket>, n: nat)
    requires 0 < n <= |buckets|
    ensures Items(buckets[..n]) == Items(buckets[..n - 1]) + [buckets[n - 1].items]
  {
    var a, b := Items(buckets[..n]), Items(buckets[..n - 1]) + [buckets[n - 1].items];
    assert |a| == |b|;
    forall k | 0 <= k < |a|
      ensures a[k] == b[k]
    {
      if k < n - 1 {
        assert buckets[..n][k] == buckets[..n - 1][k];
      }
    }
  }

  /** Every item of every bucket ends up in exactly one batch: the batches
      hold the buckets' items with the same multiplicities. */
  lemma BatchesCover(seed: int, buckets: seq<Bucket>, maxFrames: nat,
                     randperm: (int, nat, nat) -> seq<nat>)
    requires Permutations(randperm)
    requires Batches(seed, buckets, maxFrames, randperm).Ok?
    ensures multiset(Concat(Batches(seed, buckets, maxFrames, randperm).value))
         == multiset(Concat(Items(buckets)))
  {
    var batches := BucketBatches(seed, buckets, maxFrames, randperm, |buckets|).value;
    BucketBatchesCover(seed, buckets, maxFrames, randperm, |buckets|);
    assert buckets[..|buckets|] == buckets;
    var perm := randperm(seed, |buckets|, |batches|);
    PermuteMultiset(batches, perm);
    ConcatSameMultiset(Permute(batches, perm), batches);
  }

  /** A batch cut from `bucket`: between 1 and `MAX_FRAMES // max_length`
      of its items. */
  ghost predicate FromBucket(batch: seq<nat>, bucket: Bucket, maxFrames: nat)
  {
    && BatchSize(maxFrames, bucket.maxLength).Ok?
    && 1 <= |batch| <= BatchSize(maxFrames, bucket.maxLength).value
    && multiset(batch) <= multiset(bucket.items)
  }

  ghost predicate HasOrigin(batch: seq<nat>, buckets: seq<Bucket>, maxFrames: nat)
  {
    exists k :: 0 <= k < |buckets| && FromBucket(batch, buckets[k], maxFrames)
  }

  lemma {:induction false} BucketBatchesOrigin(seed: int, buckets: seq<Bucket>, maxFrames: nat,
                                               randperm: (int, nat, nat) -> seq<nat>, n: nat)
    requires Permutations(randperm) && n <= |buckets|
    requires BucketBatches(seed, buckets, maxFrames, randperm, n).Ok?
    ensures forall j :: 0 <= j < |BucketBatches(seed, buckets, maxFrames, randperm, n).value| ==>
              HasOrigin(BucketBatches(seed, buckets, maxFrames, randperm, n).value[j], buckets, maxFrames)
  {
    if n > 0 {
      var bucket := buckets[n - 1];
      var shuffled := BucketStep(seed, buckets, maxFrames, randperm, n);
      BucketBatchesOrigin(seed, buckets, maxFrames, randperm, n - 1);
      var prior := BucketBatches(seed, buckets, maxFrames, randperm, n - 1).value;
      var chunks := Chunks(shuffled, BatchSize(maxFrames, bucket.maxLength).value);
      ChunksFromBucket(shuffled, bucket, maxFrames);
      var all := prior + chunks;
      forall j | 0 <= j < |all| ensures HasOrigin(all[j], buckets, maxFrames) {
        if j >= |prior| {
          assert all[j] == chunks[j - |prior|];
          assert 0 <= n - 1 < |buckets| && FromBucket(all[j], buckets[n - 1], maxFrames);
        } else {
          assert all[j] == prior[j];
        }
      }
    }
  }

  /** One step of BucketBatches: the batches of bucket n-1, shuffled, are
      appended to those of the buckets before it. */
  lemma BucketStep(seed: int, buckets: seq<Bucket>, maxFrames: nat,
                   randperm: (int, nat, nat) -> seq<nat>, n: nat) returns (shuffled: seq<nat>)
    requires Permutations(randperm) && 0 < n <= |buckets|
    requires BucketBatches(seed, buckets, maxFrames, randperm, n).Ok?
    ensures BucketBatches(seed, buckets, maxFrames, randperm, n - 1).Ok?
    ensures BatchSize(maxFrames, buckets[n - 1].maxLength).Ok?
    ensures multiset(shuffled) == multiset(buckets[n - 1].items)
    ensures BucketBatches(seed, buckets, maxFrames, randperm, n).value
         == BucketBatches(seed, buckets, maxFrames, randperm, n - 1).value
            + Chunks(shuffled, BatchSize(maxFrames, buckets[n - 1].maxLength).value)
  {
    var bucket := buckets[n - 1];
    var perm := randperm(seed, n - 1, |bucket.items|);
    PermuteMultiset(bucket.items, perm);
    shuffled := Permute(bucket.items, perm);
  }

  /** The chunks of a shuffled bucket are batches from that bucket. */
  lemma ChunksFromBucket(shuffled: seq<nat>, bucket: Bucket, maxFrames: nat)
    requires BatchSize(maxFrames, bucket.maxLength).Ok?
    requires multiset(shuffled) == multiset(bucket.items)
    ensures var chunks := Chunks(shuffled, BatchSize(maxFrames, bucket.maxLength).value);
      forall j :: 0 <= j < |chunks| ==> FromBucket(chunks[j], bucket, maxFrames)
  {
    var size := BatchSize(maxFrames, bucket.maxLength).value;
    var chunks := Chunks(shuffled, size);
    ChunksLaws(shuffled, size);
    forall j | 0 <= j < |chunks| ensures FromBucket(chunks[j], bucket, maxFrames) {
      ChunkWithin(chunks, j);
    }
  }

  /** Every batch `batch` returns came from one bucket and respects that
      bucket's batch size. */
  lemma BatchesOrigin(seed: int, buckets: seq<Bucket>, maxFrames: nat,
                      randperm: (int, nat, nat) -> seq<nat>)
    requires Permutations(randperm)
    requires Batches(seed, buckets, maxFrames, randperm).Ok?
    ensures forall j :: 0 <= j < |Batches(seed, buckets, maxFrames, randperm).value| ==>
              HasOrigin(Batches(seed, buckets, maxFrames, randperm).value[j], buckets, maxFrames)
  {
    var batches := BucketBatches(seed, buckets, maxFrames, randperm, |buckets|).value;
    BucketBatchesOrigin(seed, buckets, maxFrames, randperm, |buckets|);
    var perm := randperm(seed, |buckets|, |batches|);
    PermutationBelow(perm, |batches|);
  }

  /** The frames of a batch: the sum of its items' lengths. */
  function FrameTotal(batch: seq<nat>, lengths: seq<nat>): nat
    requires Below(batch, |lengths|)
  {
    if |batch| == 0 then 0 else lengths[batch[0]] + FrameTotal(batch[1..], lengths)
  }

  lemma {:induction false} FrameTotalBound(batch: seq<nat>, lengths: seq<nat>, bound: nat)
    requires Below(batch, |lengths|)
    requires forall m :: 0 <= m < |batch| ==> lengths[batch[m]] <= bound
    ensures FrameTotal(batch, lengths) <= |batch| * bound
  {
    if |batch| > 0 {
      FrameTotalBound(batch[1..], lengths, bound);
    }
  }

  /** A batch of a bucket whose items are no longer than its tag stays
      within the frame budget. */
  lemma WithinBudget(batch: seq<nat>, bucket: Bucket, maxFrames: nat, lengths: seq<nat>)
    requires FromBucket(batch, bucket, maxFrames) && Below(batch, |lengths|)
    requires forall m :: 0 <= m < |batch| ==> lengths[batch[m]] <= bucket.maxLength
    ensures FrameTotal(batch, lengths) <= maxFrames
  {
    var size := BatchSize(maxFrames, bucket.maxLength).value;
    FrameTotalBound(batch, lengths, bucket.maxLength);
    MulMonotone(|batch|, size, bucket.maxLength);
  }

  lemma MulMonotone(a: nat, b: nat, c: nat)
    requires a <= b
    ensures a * c <= b * c
  {
  }

  /** A batch of a bucket whose items are all at most its tag long. */
  lemma BatchFits(batch: seq<nat>, bucket: Bucket, maxFrames: nat, lengths: seq<nat>)
    requires FromBucket(batch, bucket, maxFrames)
    requires forall i :: 0 <= i < |bucket.items| ==>
               bucket.items[i] < |lengths| && lengths[bucket.items[i]] <= bucket.maxLength
    ensures Below(batch, |lengths|) && FrameTotal(batch, lengths) <= maxFrames
  {
    forall m | 0 <= m < |batch|
      ensures batch[m] < |lengths| && lengths[batch[m]] <= bucket.maxLength
    {
      assert batch[m] in multiset(bucket.items);
      var i :| 0 <= i < |bucket.items| && bucket.items[i] == batch[m];
    }
    WithinBudget(batch, bucket, maxFrames, lengths);
  }

  /** Sampling the buckets of a dataset: every item lands in exactly one
      batch, and every batch stays within the frame budget. */
  lemma SampledDataset(datasets: seq<seq<nat>>, order: seq<nat>, size: nat, seed: int,
                       maxFrames: nat, randperm: (int, nat, nat) -> seq<nat>)
    requires size > 0 && SortsBy(order, Flatten(datasets)) && Permutations(randperm)
    requires Batches(seed, TaggedChunks(Flatten(datasets), order, size), maxFrames, randperm).Ok?
    ensures var batches := Batches(seed, TaggedChunks(Flatten(datasets), order, size), maxFrames, randperm).value;
      && multiset(Concat(batches)) == multiset(Range(Len(datasets)))
      && forall j :: 0 <= j < |batches| ==>
           Below(batches[j], Len(datasets)) && FrameTotal(batches[j], Flatten(datasets)) <= maxFrames
  {
    var lengths := Flatten(datasets);
    var buckets := TaggedChunks(lengths, order, size);
    var batches := Batches(seed, buckets, maxFrames, randperm).value;
    BucketsLaws(lengths, order, size);
    BatchesCover(seed, buckets, maxFrames, randperm);
    BatchesOrigin(seed, buckets, maxFrames, randperm);
    forall j | 0 <= j < |batches|
      ensures Below(batches[j], Len(datasets)) && FrameTotal(batches[j], lengths) <= maxFrames
    {
      var k :| 0 <= k < |buckets| && FromBucket(batches[j], buckets[k], maxFrames);
      BatchFits(batches[j], buckets[k], maxFrames, lengths);
    }
  }

  /** The buckets a dataset hands its sampler: the tagged chunks of size
      `size` of the length order `order`. */
  ghost predicate DatasetBuckets(datasets: seq<seq<nat>>, order: seq<nat>, size: nat, buckets: seq<Bucket>)
  {
    && size > 0 && SortsBy(order, Flatten(datasets))
    && buckets == TaggedChunks(Flatten(datasets), order, size)
  }

  /** Every item of the datasets is in exactly one of their buckets. */
  lemma BucketItemCount(datasets: seq<seq<nat>>, order: seq<nat>, size: nat, buckets: seq<Bucket>)
    requires DatasetBuckets(datasets, order, size, buckets)
    ensures |Concat(Items(buckets))| == Dataset.Len(datasets)
  {
    BucketsLaws(Flatten(datasets), order, size);
  }

  class Sampler {
    var epoch: int
    var length: nat
    var buckets: seq<Bucket>
    /** The dataset the sampler was built from, its length order and its
        bucket size. */
    ghost var datasets: seq<seq<nat>>
    ghost var order: seq<nat>
    ghost var size: nat

    /** The length and the buckets are those of the dataset. */
    ghost predicate Valid()
      reads this
    {
      && length == Dataset.Len(datasets)
      && DatasetBuckets(datasets, order, size, buckets)
    }

    /** `__init__`: epoch 0, `len(dataset)` and `dataset.buckets()`, which
        module Dataset computes (see New for the construction that can fail). */
    constructor(datasets: seq<seq<nat>>, buckets: seq<Bucket>, ghost order: seq<nat>, ghost size: nat)
      requires DatasetBuckets(datasets, order, size, buckets)
      ensures Valid()
      ensures epoch == 0 && length == Dataset.Len(datasets) && this.buckets == buckets
      ensures this.datasets == datasets && this.order == order && this.size == size
    {
      epoch := 0;
      length := Dataset.Len(datasets);
      this.buckets := buckets;
      this.datasets := datasets;
      this.order := order;
      this.size := size;
    }

    /** `__len__`: the number of items, whatever the number of batches:
        the dataset's length, which is also the number of bucketed items. */
    function Len(): (n: nat)
      reads this
      requires Valid()
      ensures n == Dataset.Len(datasets)
      ensures n == |Concat(Items(buckets))|
    {
      BucketItemCount(datasets, order, size, buckets);
      length
    }

    method SetEpoch(epoch: int)
      modifies this
      ensures this.epoch == epoch
      ensures length == old(length) && buckets == old(buckets)
      ensures datasets == old(datasets) && order == old(order) && size == old(size)
      ensures old(Valid()) ==> Valid()
    {
      this.epoch := epoch;
    }

    /** `batch`: the generator is seeded with `RANDOM_SEED + epoch`; each
        bucket is shuffled and chunked in turn, and the list of batches is
        shuffled once more by the next draw. */
    method Batch(randomSeed: int, maxFrames: nat, randperm: (int, nat, nat) -> seq<nat>)
      returns (r: Result<seq<seq<nat>>>)
      requires Permutations(randperm)
      ensures r == Batches(randomSeed + epoch, buckets, maxFrames, randperm)
    {
      var seed := randomSeed + epoch;
      var batches: seq<seq<nat>> := [];
      var k := 0;
      while k < |buckets|
        invariant 0 <= k <= |buckets|
        invariant BucketBatches(seed, buckets, maxFrames, randperm, k) == Ok(batches)
      {
        var bucket := buckets[k];
        var perm := randperm(seed, k, |bucket.items|);
        PermutationBelow(perm, |bucket.items|);
        var shuffled := Permute(bucket.items, perm);
        var size := BatchSize(maxFrames, bucket.maxLength);
        BucketBatchesNext(seed, buckets, maxFrames, randperm, k);
        if size.Err? {
          ErrorPersists(seed, buckets, maxFrames, randperm, k + 1, |buckets|);
          return Err(size.error);
        }
        batches := batches + Chunks(shuffled, size.value);
        k := k + 1;
      }
      var perm := randperm(seed, |buckets|, |batches|);
      PermutationBelow(perm, |batches|);
      return Ok(Permute(batches, perm));
    }
  }

  /** `Sampler(dataset)`: `dataset.buckets()` runs first, so its errors
      (ZeroDivisionError, ValueError) are the constructor's. */
  method NewSampler(datasets: seq<seq<nat>>, bucketCount: nat, order: seq<nat>) returns (r: Result<Sampler>)
    requires SortsBy(order, Flatten(datasets))
    ensures bucketCount == 0 ==> r == Err(ZeroDivisionError)
    ensures bucketCount > 0 && Dataset.BucketSize(datasets, bucketCount) == 0 ==> r == Err(ValueError)
    ensures bucketCount > 0 && Dataset.BucketSize(datasets, bucketCount) > 0 ==>
      && r.Ok? && fresh(r.value) && r.value.Valid() && r.value.epoch == 0
      && r.value.datasets == datasets && r.value.length == Dataset.Len(datasets)
      && r.value.buckets == TaggedChunks(Flatten(datasets), order, Dataset.BucketSize(datasets, bucketCount))
  {
    var buckets := Buckets(datasets, bucketCount, order);
    if buckets.Err? {
      return Err(buckets.error);
    }
    var sampler := new Sampler(datasets, buckets.value, order, Dataset.BucketSize(datasets, bucketCount));
    return Ok(sampler);
  }

  function Min(a: nat, b: nat): nat
  {
    if a <= b then a else b
  }

  /** Position start + j × step, written without multiplication. */
  function Offset(start: nat, j: nat, step: nat): nat
  {
    if j == 0 then start else Offset(start, j - 1, step) + step
  }

  lemma {:induction false} OffsetIsProduct(start: nat, j: nat, step: nat)
    ensures Offset(start, j, step) == start + j * step
  {
    if j > 0 {
      OffsetIsProduct(start, j - 1, step);
      MulSucc(j - 1, step);
    }
  }

  lemma {:induction false} OffsetShift(start: nat, j: nat, step: nat)
    ensures Offset(start + step, j, step) == Offset(start, j + 1, step)
  {
    if j > 0 {
      OffsetShift(start, j - 1, step);
    }
  }

  lemma {:induction false} OffsetMonotone(start: nat, i: nat, j: nat, step: nat)
    requires i <= j
    ensures Offset(start, i, step) <= Offset(start, j, step)
    decreases j
  {
    if i < j {
      OffsetMonotone(start, i, j - 1, step);
    }
  }

  /** The Python slice `s[start:stop:step]` for a positive step and
      non-negative bounds: the positions start, start + step, ... below
      both stop and |s|, in order, and no further one. */
  function Strided<T>(s: seq<T>, start: nat, stop: nat, step: nat): (r: seq<T>)
    requires step > 0
    ensures forall j :: 0 <= j < |r| ==>
              Offset(start, j, step) < Min(stop, |s|) && r[j] == s[Offset(start, j, step)]
    ensures Offset(start, |r|, step) >= Min(stop, |s|)
    decreases |s| - start
  {
    if start >= stop || start >= |s| then []
    else
      var rest := Strided(s, start + step, stop, step);
      var r := [s[start]] + rest;
      forall j | 1 <= j < |r| ensures Offset(start, j, step) == Offset(start + step, j - 1, step) {
        OffsetShift(start, j - 1, step);
      }
      OffsetShift(start, |rest|, step);
      r
  }

  lemma MulSucc(a: nat, b: nat)
    ensures (a + 1) * b == a * b + b
  {
  }

  class DistributedSampler {
    var epoch: int
    var length: nat
    var buckets: seq<Bucket>
    var rank: nat
    var numReplicas: nat
    var totalSize: nat
    /** The dataset the sampler was built from, its length order and its
        bucket size. */
    ghost var datasets: seq<seq<nat>>
    ghost var order: seq<nat>
    ghost var size: nat

    /** The buckets are the dataset's, and each process reports its share
        of the dataset's length. */
    ghost predicate Valid()
      reads this
    {
      && numReplicas > 0
      && length == CeilDiv(Dataset.Len(datasets), numReplicas)
      && totalSize == length * numReplicas
      && DatasetBuckets(datasets, order, size, buckets)
    }

    /** `DistributedSampler.__init__` with the dataset passed on to the
        base class: each of the `numReplicas` processes reports
        `ceil(len / numReplicas)` items. */
    constructor(datasets: seq<seq<nat>>, buckets: seq<Bucket>, ghost order: seq<nat>, ghost size: nat,
                rank: nat, numReplicas: nat)
      requires numReplicas > 0 && DatasetBuckets(datasets, order, size, buckets)
      ensures Valid()
      ensures epoch == 0 && this.buckets == buckets
      ensures this.rank == rank && this.numReplicas == numReplicas
      ensures this.datasets == datasets && this.order == order && this.size == size
      ensures length == CeilDiv(Dataset.Len(datasets), numReplicas)
      ensures totalSize == length * numReplicas && totalSize >= Dataset.Len(datasets)
    {
      epoch := 0;
      this.buckets := buckets;
      this.rank := rank;
      this.numReplicas := numReplicas;
      this.datasets := datasets;
      this.order := order;
      this.size := size;
      length := CeilDiv(Dataset.Len(datasets), numReplicas);
      totalSize := CeilDiv(Dataset.Len(datasets), numReplicas) * numReplicas;
    }

    /** `__len__`: this process's share of the items, rounded up; the
        shares together cover every bucketed item. */
    function Len(): (n: nat)
      reads this
      requires Valid()
      ensures n == CeilDiv(Dataset.Len(datasets), numReplicas)
      ensures n * numReplicas >= |Concat(Items(buckets))|
      ensures n == 0 || (n - 1) * numReplicas < |Concat(Items(buckets))|
    {
      BucketItemCount(datasets, order, size, buckets);
      length
    }

    method SetEpoch(epoch: int)
      modifies this
      ensures this.epoch == epoch
      ensures length == old(length) && buckets == old(buckets) && rank == old(rank)
      ensures numReplicas == old(numReplicas) && totalSize == old(totalSize)
      ensures datasets == old(datasets) && order == old(order) && size == old(size)
      ensures old(Valid()) ==> Valid()
    {
      this.epoch := epoch;
    }

    /** `__iter__`: this process's share of the epoch's batches, every
        `numReplicas`-th from position `rank`, below `totalSize`. */
    method Iter(randomSeed: int, maxFrames: nat, randperm: (int, nat, nat) -> seq<nat>)
      returns (r: Result<seq<seq<nat>>>)
      requires Permutations(randperm) && numReplicas > 0
      ensures var all := Batches(randomSeed + epoch, buckets, maxFrames, randperm);
        && (all.Err? ==> r == Err(all.error))
        && (all.Ok? ==> r == Ok(Strided(all.value, rank, totalSize, numReplicas)))
    {
      var all := Batches(randomSeed + epoch, buckets, maxFrames, randperm);
      if all.Err? {
        return Err(all.error);
      }
      return Ok(Strided(all.value, rank, totalSize, numReplicas));
    }
  }

  /** `DistributedSampler(dataset)` with the dataset passed on: the
      base class's `dataset.buckets()` errors, otherwise a sampler for this
      process. */
  method NewDistributedSampler(datasets: seq<seq<nat>>, bucketCount: nat, order: seq<nat>,
                               rank: nat, numReplicas: nat) returns (r: Result<DistributedSampler>)
    requires numReplicas > 0 && SortsBy(order, Flatten(datasets))
    ensures bucketCount == 0 ==> r == Err(ZeroDivisionError)
    ensures bucketCount > 0 && Dataset.BucketSize(datasets, bucketCount) == 0 ==> r == Err(ValueError)
    ensures bucketCount > 0 && Dataset.BucketSize(datasets, bucketCount) > 0 ==>
      && r.Ok? && fresh(r.value) && r.value.Valid() && r.value.epoch == 0
      && r.value.datasets == datasets && r.value.rank == rank && r.value.numReplicas == numReplicas
      && r.value.buckets == TaggedChunks(Flatten(datasets), order, Dataset.BucketSize(datasets, bucketCount))
  {
    var buckets := Buckets(datasets, bucketCount, order);
    if buckets.Err? {
      return Err(buckets.error);
    }
    var sampler := new DistributedSampler(datasets, buckets.value, order, Dataset.BucketSize(datasets, bucketCount),
                                          rank, numReplicas);
    return Ok(sampler);
  }

  /** `DistributedSampler.__init__` as written: `super().__init__()` omits
      the base class's required `dataset` argument. */
  function DistributedSamplerAsWritten(datasets: seq<seq<nat>>): (r: Result<()>)
    ensures r == Err(TypeError)
  {
    Err(TypeError)
  }

  /** Position rank + j × numReplicas, for a rank below numReplicas,
      is batch j of process `rank` whenever it lies below both totalSize and
      the number of batches: the shares leave no such batch out. */
  lemma StridedShares<T>(s: seq<T>, numReplicas: nat, totalSize: nat, rank: nat, j: nat)
    requires numReplicas > 0 && rank < numReplicas
    requires rank + j * numReplicas < Min(totalSize, |s|)
    ensures var share := Strided(s, rank, totalSize, numReplicas);
      j < |share| && share[j] == s[rank + j * numReplicas]
  {
    var share := Strided(s, rank, totalSize, numReplicas);
    OffsetIsProduct(rank, j, numReplicas);
    if |share| <= j {
      OffsetMonotone(rank, |share|, j, numReplicas);
      assert false;
    }
  }

  /** The samplers `sampler` constructs. */
  datatype Kind = Bucketed | Distributed | Sequential

  /** `sampler`: `'train'` and `'valid'` sample buckets (distributed
      training divides them among processes), `'test'` goes through the
      items one at a time, any other partition is a ValueError. */
  function SamplerFor(partition: string, distributed: bool): (r: Result<Kind>)
    ensures r.Err? <==> partition != "train" && partition != "valid" && partition != "test"
    ensures r.Err? ==> r.error == ValueError
    ensures r == Ok(Bucketed) <==> partition == "valid" || (partition == "train" && !distributed)
    ensures r == Ok(Distributed) <==> partition == "train" && distributed
    ensures r == Ok(Sequential) <==> partition == "test"
  {
    if partition == "train" then
      if distributed then Ok(Distributed) else Ok(Bucketed)
    else if partition == "valid" then Ok(Bucketed)
    else if partition == "test" then Ok(Sequential)
    else Err(ValueError)
  }

  /** The test batches: `BatchSampler(SequentialSampler(dataset), 1, False)`
      yields every item alone, in order. */
  function SequentialBatches(n: nat): (batches: seq<seq<nat>>)
    ensures |batches| == n && forall i :: 0 <= i < n ==> batches[i] == [i]
  {
    seq(n, i requires 0 <= i < n => [i])
  }

  lemma {:induction false} SequentialCovers(n: nat)
    ensures Concat(SequentialBatches(n)) == Range(n)
  {
    if n > 0 {
      SequentialCovers(n - 1);
      assert SequentialBatches(n) == SequentialBatches(n - 1) + [[n - 1]];
      ConcatAppend(SequentialBatches(n - 1), [[n - 1]]);
      assert Concat([[n - 1]]) == [n - 1];
      assert Range(n) == Range(n - 1) + [n - 1];
    }
  }
}
