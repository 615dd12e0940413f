/**
  The claimed-interval bitmap of a node (GetClaimStatus in shared/services/rewards/utils.go).

  Interval `i` is claimed when bit `i % 256` of the 256-bit storage word for
  bucket `i / 256` is set. The storage read for a bucket may fail; the
  Keccak-derived storage key of a bucket is abstracted into the bucket number.
*/
module ClaimStatus {
  import opened Wrappers

  /** One storage read: the word for a bucket (a big integer), or the error the node returned. */
  type WordSource = nat -> Result<nat, string>

  /** `1 << k`, the mask the source builds with `Lsh`. */
  function Pow2(k: nat): (r: nat)
    ensures r >= 1
  {
    if k == 0 then 1 else 2 * Pow2(k - 1)
  }

  /** Bitwise AND of two non-negative big integers, as `big.Int.And` computes it. */
  function And(a: nat, b: nat): nat
    decreases a
  {
    if a == 0 || b == 0 then 0
    else 2 * And(a / 2, b / 2) + (if a % 2 == 1 && b % 2 == 1 then 1 else 0)
  }

  /** Bit `bit` of `word`: shift right `bit` times and look at the lowest bit. */
  predicate BitSet(word: nat, bit: nat)
  {
    if bit == 0 then word % 2 == 1 else BitSet(word / 2, bit - 1)
  }

  /** Interval `i` has been claimed: bit `i % 256` of the word of bucket `i / 256` is set. */
  predicate IsClaimed(storage: WordSource, i: nat)
  {
    BucketBitSet(storage, i / 256, i % 256)
  }

  /** Bit `bit` of the word of bucket `bucket` is set. */
  predicate BucketBitSet(storage: WordSource, bucket: nat, bit: nat)
  {
    storage(bucket).Success? && BitSet(storage(bucket).value, bit)
  }

  /**
    The indices `bucket * 256 + j` below `bucket * 256 + bit`, bucket by bucket and
    bit by bit, whose claim status is `claimed`.
  */
  function Classified(storage: WordSource, bucket: nat, bit: nat, claimed: bool): seq<nat>
    requires bit <= 256
    decreases bucket, bit
  {
    if bit == 0 then
      (if bucket == 0 then [] else Classified(storage, bucket - 1, 256, claimed))
    else
      Classified(storage, bucket, bit - 1, claimed) +
      (if BucketBitSet(storage, bucket, bit - 1) == claimed then [bucket * 256 + bit - 1] else [])
  }

  /** The intervals below `n` whose claim status is `claimed`. */
  function Select(storage: WordSource, n: nat, claimed: bool): seq<nat>
  {
    Classified(storage, n / 256, n % 256, claimed)
  }

  /** The bucket numbers `0 .. n-1`, the order in which the words are read. */
  function Range(n: nat): (r: seq<nat>)
    ensures |r| == n && forall k :: 0 <= k < n ==> r[k] == k
  {
    if n == 0 then [] else Range(n - 1) + [n - 1]
  }

  /** Number of buckets a complete run reads for `currentIndex` (none when it is 0). */
  function BucketCount(currentIndex: nat): nat
  {
    if currentIndex == 0 then 0 else currentIndex / 256 + 1
  }

  /** The first bucket at or after `from` and below `count` whose read fails, or `count`. */
  function FirstFailedBucket(storage: WordSource, from: nat, count: nat): (b: nat)
    requires from <= count
    ensures from <= b <= count
    ensures b < count ==> storage(b).Failure?
    ensures forall k :: from <= k < b ==> storage(k).Success?
    decreases count - from
  {
    if from == count then count
    else if storage(from).Failure? then from
    else FirstFailedBucket(storage, from + 1, count)
  }

  lemma DivMod(i: nat, j: nat)
    requires j < 256
    ensures (i * 256 + j) / 256 == i && (i * 256 + j) % 256 == j
  {
  }

  lemma {:induction false} ClassifiedMembership(storage: WordSource, bucket: nat, bit: nat, claimed: bool, x: nat)
    requires bit <= 256
    ensures x in Classified(storage, bucket, bit, claimed) <==>
            x < bucket * 256 + bit && IsClaimed(storage, x) == claimed
    decreases bucket, bit
  {
    if bit == 0 {
      if bucket > 0 {
        ClassifiedMembership(storage, bucket - 1, 256, claimed, x);
      }
    } else {
      ClassifiedMembership(storage, bucket, bit - 1, claimed, x);
      DivMod(bucket, bit - 1);
    }
  }

  /** `s` is strictly ascending. */
  predicate Ascending(s: seq<nat>)
  {
    forall k, l :: 0 <= k < l < |s| ==> s[k] < s[l]
  }

  lemma {:induction false} ClassifiedAscending(storage: WordSource, bucket: nat, bit: nat, claimed: bool)
    requires bit <= 256
    ensures Ascending(Classified(storage, bucket, bit, claimed))
    decreases bucket, bit
  {
    if bit == 0 {
      if bucket > 0 {
        ClassifiedAscending(storage, bucket - 1, 256, claimed);
        assert Classified(storage, bucket, bit, claimed) == Classified(storage, bucket - 1, 256, claimed);
      }
    } else {
      ClassifiedAscending(storage, bucket, bit - 1, claimed);
      var s := Classified(storage, bucket, bit - 1, claimed);
      var t := Classified(storage, bucket, bit, claimed);
      forall k | 0 <= k < |s|
        ensures s[k] < bucket * 256 + bit - 1
      {
        ClassifiedMembership(storage, bucket, bit - 1, claimed, s[k]);
      }
      assert Ascending(s);
      if BucketBitSet(storage, bucket, bit - 1) == claimed {
        assert t == s + [bucket * 256 + bit - 1];
        forall k, l | 0 <= k < l < |t|
          ensures t[k] < t[l]
        {
          if l < |s| {
            assert t[k] == s[k] && t[l] == s[l];
          } else {
            assert t[k] == s[k] && t[l] == bucket * 256 + bit - 1;
          }
        }
      } else {
        assert t == s;
      }
    }
  }

  lemma {:induction false} ClassifiedCount(storage: WordSource, bucket: nat, bit: nat)
    requires bit <= 256
    ensures |Classified(storage, bucket, bit, true)| + |Classified(storage, bucket, bit, false)| == bucket * 256 + bit
    decreases bucket, bit
  {
    if bit == 0 {
      if bucket > 0 {
        ClassifiedCount(storage, bucket - 1, 256);
      }
    } else {
      ClassifiedCount(storage, bucket, bit - 1);
    }
  }

  /** Index `i` is in the list for `claimed` exactly when it lies below `n` and its bit says `claimed`. */
  lemma SelectMembership(storage: WordSource, n: nat, claimed: bool, i: nat)
    ensures i in Select(storage, n, claimed) <==> i < n && IsClaimed(storage, i) == claimed
  {
    ClassifiedMembership(storage, n / 256, n % 256, claimed, i);
  }

  /** Both lists are strictly ascending. */
  lemma SelectAscending(storage: WordSource, n: nat, claimed: bool)
    ensures Ascending(Select(storage, n, claimed))
  {
    ClassifiedAscending(storage, n / 256, n % 256, claimed);
  }

  /** The two lists split `[0, n)` between them: every index below `n` lies in exactly one. */
  lemma SelectPartition(storage: WordSource, n: nat)
    ensures |Select(storage, n, true)| + |Select(storage, n, false)| == n
    ensures forall i :: i in Select(storage, n, true) ==> i !in Select(storage, n, false)
    ensures forall i: nat :: i < n ==> i in Select(storage, n, true) || i in Select(storage, n, false)
  {
    ClassifiedCount(storage, n / 256, n % 256);
    forall i | i in Select(storage, n, true)
      ensures i !in Select(storage, n, false)
    {
      SelectMembership(storage, n, true, i);
      SelectMembership(storage, n, false, i);
    }
    forall i: nat | i < n
      ensures i in Select(storage, n, true) || i in Select(storage, n, false)
    {
      SelectMembership(storage, n, true, i);
      SelectMembership(storage, n, false, i);
    }
  }

  /** The source's test `bitmap & (1 << j) == 1 << j` holds exactly when bit `j` is set. */
  lemma {:induction false} MaskTest(word: nat, j: nat)
    ensures And(word, Pow2(j)) == Pow2(j) <==> BitSet(word, j)
  {
    if j > 0 {
      MaskTest(word / 2, j - 1);
      assert Pow2(j) / 2 == Pow2(j - 1) && Pow2(j) % 2 == 0;
      if word > 0 {
        assert And(word, Pow2(j)) == 2 * And(word / 2, Pow2(j - 1));
      }
    }
  }

  /**
    The inner loop of the source: classifies, in ascending order, the indices of
    bucket `i` that lie below `currentIndex`, appending each to `claimed` or
    `unclaimed` by its bit in `bitmap`, the word read for the bucket.
  */
  method ClassifyBucket(storage: WordSource, i: nat, bitmap: nat, currentIndex: nat,
                        claimedBefore: seq<nat>, unclaimedBefore: seq<nat>)
    returns (claimed: seq<nat>, unclaimed: seq<nat>)
    requires storage(i) == Success(bitmap)
    requires i * 256 <= currentIndex
    requires claimedBefore == Classified(storage, i, 0, true)
    requires unclaimedBefore == Classified(storage, i, 0, false)
    ensures var bits := if currentIndex < i * 256 + 256 then currentIndex - i * 256 else 256;
            claimed == Classified(storage, i, bits, true) && unclaimed == Classified(storage, i, bits, false)
  {
    claimed, unclaimed := claimedBefore, unclaimedBefore;
    var j := 0;
    while j < 256
      invariant 0 <= j <= 256
      invariant i * 256 + j <= currentIndex
      invariant claimed == Classified(storage, i, j, true)
      invariant unclaimed == Classified(storage, i, j, false)
    {
      var targetIndex := i * 256 + j;
      if targetIndex >= currentIndex {
        break;
      }
      MaskTest(bitmap, j);
      var mask := Pow2(j);
      var maskedBitmap := And(bitmap, mask);
      if maskedBitmap == mask {
        claimed := claimed + [targetIndex];
      } else {
        unclaimed := unclaimed + [targetIndex];
      }
      j := j + 1;
    }
  }

  /**
    The outer loop of the source for a positive `currentIndex`: reads the word of
    every bucket `0 .. currentIndex / 256` in order, classifying its indices below
    `currentIndex`, and stops at the first read that fails, keeping what it built.
  */
  method ClassifyBuckets(storage: WordSource, currentIndex: nat)
    returns (unclaimed: seq<nat>, claimed: seq<nat>, err: Option<string>, queried: seq<nat>)
    requires 0 < currentIndex
    ensures var count := BucketCount(currentIndex);
            var failed := FirstFailedBucket(storage, 0, count);
            var limit := if failed < count then failed * 256 else currentIndex;
            && limit <= currentIndex
            && claimed == Select(storage, limit, true)
            && unclaimed == Select(storage, limit, false)
            && (failed < count ==> err == Some(storage(failed).error) && queried == Range(failed + 1))
            && (failed == count ==> err == None && queried == Range(count))
  {
    unclaimed, claimed, err, queried := [], [], None, [];
    ghost var count := BucketCount(currentIndex);
    ghost var failed := FirstFailedBucket(storage, 0, count);
    var bucket := currentIndex / 256;
    DivMod(bucket, currentIndex % 256);
    var i := 0;
    while i <= bucket
      invariant 0 <= i <= bucket + 1 == count
      invariant i <= failed
      invariant queried == Range(i)
      invariant i <= bucket ==> i * 256 <= currentIndex
      invariant i <= bucket ==> claimed == Classified(storage, i, 0, true) && unclaimed == Classified(storage, i, 0, false)
      invariant i == bucket + 1 ==> claimed == Select(storage, currentIndex, true) && unclaimed == Select(storage, currentIndex, false)
    {
      var word := storage(i);
      queried := queried + [i];
      if word.Failure? {
        assert failed == i;
        DivMod(i, 0);
        assert Select(storage, i * 256, true) == claimed && Select(storage, i * 256, false) == unclaimed;
        err := Some(word.error);
        return;
      }
      claimed, unclaimed := ClassifyBucket(storage, i, word.value, currentIndex, claimed, unclaimed);
      i := i + 1;
    }
    assert failed == count;
  }

  /**
    Splits `[0, currentIndex)` into unclaimed and claimed intervals. `index` is the
    outcome of the reward-index query and `storage` the claimed-bitmap reads; on a
    failed read the lists built so far are returned with the error, as the Go named
    results are. `queried` is the sequence of buckets whose word was read.
  */
  method GetClaimStatus(index: Result<nat, string>, storage: WordSource)
    returns (unclaimed: seq<nat>, claimed: seq<nat>, err: Option<string>, queried: seq<nat>)
    requires index.Success? ==> index.value < 65536
    ensures index.Failure? ==>
              unclaimed == [] && claimed == [] && err == Some(index.error) && queried == []
    ensures index.Success? ==>
              var n := index.value;
              var count := BucketCount(n);
              var failed := FirstFailedBucket(storage, 0, count);
              var limit := if failed < count then failed * 256 else n;
              && limit <= n
              && claimed == Select(storage, limit, true)
              && unclaimed == Select(storage, limit, false)
              && (failed < count ==> err == Some(storage(failed).error) && queried == Range(failed + 1))
              && (failed == count ==> err == None && queried == Range(count))
  {
    unclaimed, claimed, err, queried := [], [], None, [];
    if index.Failure? {
      err := Some(index.error);
      return;
    }
    var currentIndex := index.value;
    if currentIndex == 0 {
      return;
    }
    unclaimed, claimed, err, queried := ClassifyBuckets(storage, currentIndex);
  }
}
