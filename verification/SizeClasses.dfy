/** Rounding and histogram indexing of malloc_hole_hook.c: which class a request rounds to
    and which of the 177 live histogram buckets counts it. The 176 histogram boundaries are
    written as the arithmetic stretches the table consists of, with its two irregular
    stretches listed. */
module SizeClasses {
  import opened Wrappers

  const SMALL_CLASSES: nat := 160
  const BOUNDARIES: nat := 176
  const LARGE_START: nat := 164
  const SMALL_LIMIT: nat := 16384
  const PAGE: nat := 4096
  const SIZE_MAX: nat := 0xFFFF_FFFF_FFFF_FFFF

  const MIDDLE: seq<nat> := [544, 560, 576, 608, 640, 656, 672, 704, 736, 768, 784, 800]
  const LARGE: seq<nat> := [40960, 49152, 57344, 65536, 81920, 98304, 114688, 131072,
                            163840, 196608, 229376, 262144]

  /** small_size_class_at */
  function SmallSizeClassAt(index: nat): nat {
    if index < 32 then (index + 1) * 8
    else if index < 48 then 256 + (index - 31) * 16
    else if index < 64 then 512 + (index - 47) * 32
    else if index < 80 then 1024 + (index - 63) * 64
    else if index < 128 then 2048 + (index - 79) * 128
    else 8192 + (index - 127) * 256
  }

  /** live_histogram_size_classes */
  function BoundaryAt(index: nat): nat
    requires index < BOUNDARIES
  {
    if index < 32 then (index + 1) * 8
    else if index < 48 then 256 + (index - 31) * 16
    else if index < 60 then MIDDLE[index - 48]
    else if index < 67 then 832 + (index - 60) * 32
    else if index < 71 then 1024 + (index - 66) * 64
    else if index == 71 then 1312
    else if index < 84 then 1344 + (index - 72) * 64
    else if index < 132 then 2048 + (index - 83) * 128
    else if index < LARGE_START then 8192 + (index - 131) * 256
    else LARGE[index - LARGE_START]
  }

  lemma NextBoundary(i: nat)
    requires i + 1 < BOUNDARIES
    ensures BoundaryAt(i) < BoundaryAt(i + 1)
  {
    if 48 <= i < 59 {
      assert MIDDLE[i - 48] < MIDDLE[i - 47];
    } else if LARGE_START <= i {
      assert LARGE[i - LARGE_START] < LARGE[i + 1 - LARGE_START];
    }
  }

  lemma {:induction false} BoundariesIncrease(i: nat, j: nat)
    requires i < j < BOUNDARIES
    ensures BoundaryAt(i) < BoundaryAt(j)
    decreases j
  {
    NextBoundary(j - 1);
    if i < j - 1 {
      BoundariesIncrease(i, j - 1);
    }
  }

  lemma {:induction false} SmallClassesIncrease(i: nat, j: nat)
    requires i < j < SMALL_CLASSES
    ensures SmallSizeClassAt(i) < SmallSizeClassAt(j)
    decreases j
  {
    if i < j - 1 {
      SmallClassesIncrease(i, j - 1);
    }
  }

  /** The size a request is rounded for: at least one byte. */
  function Value(requested: nat): nat {
    if requested == 0 then 1 else requested
  }

  /** (x + align - 1) & ~(align - 1) for a power of two. */
  function AlignUp(x: nat, align: nat): nat
    requires align > 0
  {
    (x + (align - 1)) / align * align
  }

  datatype Rounding = Rounding(size: nat, bucket: nat)

  /** rounded_allocation_size: None when the sum would overflow size_t. */
  function RoundedAllocationSize(requested: nat): Option<Rounding> {
    var value := Value(requested);
    if value <= 256 then
      var size := AlignUp(value, 8);
      Some(Rounding(size, size / 8 - 1))
    else if value <= 512 then
      var size := 256 + AlignUp(value - 256, 16);
      Some(Rounding(size, 31 + (size - 256) / 16))
    else if value <= 1024 then
      var size := 512 + AlignUp(value - 512, 32);
      Some(Rounding(size, 47 + (size - 512) / 32))
    else if value <= 2048 then
      var size := 1024 + AlignUp(value - 1024, 64);
      Some(Rounding(size, 63 + (size - 1024) / 64))
    else if value <= 4096 then
      var size := 2048 + AlignUp(value - 2048, 128);
      Some(Rounding(size, 79 + (size - 2048) / 128))
    else if value <= 8192 then
      var size := 4096 + AlignUp(value - 4096, 128);
      Some(Rounding(size, 95 + (size - 4096) / 128))
    else if value <= SMALL_LIMIT then
      var size := 8192 + AlignUp(value - 8192, 256);
      Some(Rounding(size, 127 + (size - 8192) / 256))
    else if requested > SIZE_MAX - (PAGE - 1) then None
    else Some(Rounding(AlignUp(requested, PAGE), SMALL_CLASSES))
  }

  /** A small request rounds to the least class not below it, and the bucket is that
      class's index. */
  lemma RoundsToLeastClass(requested: nat)
    requires Value(requested) <= SMALL_LIMIT
    ensures RoundedAllocationSize(requested).Some?
    ensures var r := RoundedAllocationSize(requested).value;
      && r.bucket < SMALL_CLASSES && r.size == SmallSizeClassAt(r.bucket)
      && Value(requested) <= r.size
      && forall j | 0 <= j < r.bucket :: SmallSizeClassAt(j) < Value(requested)
  {
    hide RoundedAllocationSize, SmallSizeClassAt;
    StretchFits(requested);
    var r := RoundedAllocationSize(requested).value;
    var value := Value(requested);
    forall j | 0 <= j < r.bucket ensures SmallSizeClassAt(j) < value {
      if j < r.bucket - 1 {
        SmallClassesIncrease(j, r.bucket - 1);
      }
    }
  }

  /** The rounding is a class, and the class before it is too small. */
  predicate Fits(requested: nat) {
    match RoundedAllocationSize(requested)
    case None => false
    case Some(r) =>
      && r.bucket < SMALL_CLASSES && r.size == SmallSizeClassAt(r.bucket)
      && Value(requested) <= r.size
      && (r.bucket > 0 ==> SmallSizeClassAt(r.bucket - 1) < Value(requested))
  }

  lemma Stretch8(requested: nat)
    requires 0 < Value(requested) <= 256
    ensures Fits(requested)
  {
    var k := (Value(requested) + 7) / 8;
    assert 8 * k - 8 < Value(requested) <= 8 * k;
    assert RoundedAllocationSize(requested) == Some(Rounding(8 * k, k - 1));
  }

  lemma Stretch16(requested: nat)
    requires 256 < Value(requested) <= 512
    ensures Fits(requested)
  {
    var k := (Value(requested) - 256 + 15) / 16;
    assert 16 * k - 16 < Value(requested) - 256 <= 16 * k;
    assert RoundedAllocationSize(requested) == Some(Rounding(256 + 16 * k, 31 + k));
  }

  lemma Stretch32(requested: nat)
    requires 512 < Value(requested) <= 1024
    ensures Fits(requested)
  {
    var k := (Value(requested) - 512 + 31) / 32;
    assert 32 * k - 32 < Value(requested) - 512 <= 32 * k;
    assert RoundedAllocationSize(requested) == Some(Rounding(512 + 32 * k, 47 + k));
  }

  lemma Stretch64(requested: nat)
    requires 1024 < Value(requested) <= 2048
    ensures Fits(requested)
  {
    var k := (Value(requested) - 1024 + 63) / 64;
    assert 64 * k - 64 < Value(requested) - 1024 <= 64 * k;
    assert RoundedAllocationSize(requested) == Some(Rounding(1024 + 64 * k, 63 + k));
  }

  lemma Stretch128(requested: nat)
    requires 2048 < Value(requested) <= 4096
    ensures Fits(requested)
  {
    var k := (Value(requested) - 2048 + 127) / 128;
    assert 128 * k - 128 < Value(requested) - 2048 <= 128 * k;
    assert RoundedAllocationSize(requested) == Some(Rounding(2048 + 128 * k, 79 + k));
  }

  lemma Stretch128Upper(requested: nat)
    requires 4096 < Value(requested) <= 8192
    ensures Fits(requested)
  {
    var k := (Value(requested) - 4096 + 127) / 128;
    assert 128 * k - 128 < Value(requested) - 4096 <= 128 * k;
    assert RoundedAllocationSize(requested) == Some(Rounding(4096 + 128 * k, 95 + k));
  }

  lemma Stretch256(requested: nat)
    requires 8192 < Value(requested) <= 16384
    ensures Fits(requested)
  {
    var k := (Value(requested) - 8192 + 255) / 256;
    assert 256 * k - 256 < Value(requested) - 8192 <= 256 * k;
    assert RoundedAllocationSize(requested) == Some(Rounding(8192 + 256 * k, 127 + k));
  }

  lemma StretchFits(requested: nat)
    requires Value(requested) <= SMALL_LIMIT
    ensures Fits(requested)
  {
    hide Fits;
    var value := Value(requested);
    if value <= 256 {
      Stretch8(requested);
    } else if value <= 512 {
      Stretch16(requested);
    } else if value <= 1024 {
      Stretch32(requested);
    } else if value <= 2048 {
      Stretch64(requested);
    } else if value <= 4096 {
      Stretch128(requested);
    } else if value <= 8192 {
      Stretch128Upper(requested);
    } else {
      Stretch256(requested);
    }
  }

  /** A larger request rounds to the least whole number of pages, unless that overflows. */
  lemma RoundsToLeastPage(requested: nat, pages: nat)
    requires SMALL_LIMIT < requested <= SIZE_MAX
    ensures RoundedAllocationSize(requested).None? <==> requested > SIZE_MAX - (PAGE - 1)
    ensures RoundedAllocationSize(requested).Some? ==>
      var r := RoundedAllocationSize(requested).value;
      && r.bucket == SMALL_CLASSES && r.size % PAGE == 0 && requested <= r.size <= SIZE_MAX
      && (requested <= pages * PAGE ==> r.size <= pages * PAGE)
  {
    if RoundedAllocationSize(requested).Some? {
      var r := RoundedAllocationSize(requested).value;
      assert r.size == r.size / PAGE * PAGE;
    }
  }

  // --------------------------------------------------------------- histogram buckets

  /** The least boundary index not below value, or one past the last. */
  ghost predicate LowerBound(value: nat, index: nat) {
    && index <= BOUNDARIES
    && (forall j | 0 <= j < index :: BoundaryAt(j) < value)
    && forall j | index <= j < BOUNDARIES :: value <= BoundaryAt(j)
  }

  lemma LowerBoundUnique(value: nat, i: nat, j: nat)
    requires LowerBound(value, i) && LowerBound(value, j)
    ensures i == j
  {
    var a := if i < BOUNDARIES then BoundaryAt(i) else 0;
    var b := if j < BOUNDARIES then BoundaryAt(j) else 0;
  }

  /** The branches of live_histogram_bucket_index for requests up to 16384. */
  function SmallBucketIndex(value: nat, miniBucket: nat): nat {
    if miniBucket < 49 then miniBucket
    else if miniBucket == 49 then miniBucket + if value > 560 then 1 else 0
    else if miniBucket < 52 then miniBucket + 1
    else if miniBucket == 52 then miniBucket + 1 + if value > 656 then 1 else 0
    else if miniBucket < 56 then miniBucket + 2
    else if miniBucket == 56 then miniBucket + 2 + if value > 784 then 1 else 0
    else if miniBucket < 68 then miniBucket + 3
    else if miniBucket == 68 then miniBucket + 3 + if value > 1312 then 1 else 0
    else miniBucket + 4
  }

  lemma Bracket(value: nat, index: nat)
    requires index <= BOUNDARIES
    requires index > 0 ==> BoundaryAt(index - 1) < value
    requires index < BOUNDARIES ==> value <= BoundaryAt(index)
    ensures LowerBound(value, index)
  {
    forall j | 0 <= j < index ensures BoundaryAt(j) < value {
      if j < index - 1 {
        BoundariesIncrease(j, index - 1);
      }
    }
    forall j | index <= j < BOUNDARIES ensures value <= BoundaryAt(j) {
      if index < j {
        BoundariesIncrease(index, j);
      }
    }
  }

  /** The branches agree with a search of the whole table. */
  lemma SmallIndexIsLowerBound(requested: nat)
    requires Value(requested) <= SMALL_LIMIT
    ensures RoundedAllocationSize(requested).Some?
    ensures var index := SmallBucketIndex(
                Value(requested), RoundedAllocationSize(requested).value.bucket);
      LowerBound(Value(requested), index) && index < LARGE_START
  {
    hide RoundedAllocationSize, SmallSizeClassAt, BoundaryAt, SmallBucketIndex;
    StretchFits(requested);
    var value := Value(requested);
    var bucket := RoundedAllocationSize(requested).value.bucket;
    var index := SmallBucketIndex(value, bucket);
    SmallBracket(value, bucket, index);
    Bracket(value, index);
  }

  lemma SmallBracket(value: nat, bucket: nat, index: nat)
    requires bucket < SMALL_CLASSES && index == SmallBucketIndex(value, bucket)
    requires 0 < value <= SmallSizeClassAt(bucket)
    requires bucket > 0 ==> SmallSizeClassAt(bucket - 1) < value
    ensures index < LARGE_START && value <= BoundaryAt(index)
    ensures index > 0 ==> BoundaryAt(index - 1) < value
  {
    if bucket < 48 {
    } else if bucket < 60 {
      assert MIDDLE == [544, 560, 576, 608, 640, 656, 672, 704, 736, 768, 784, 800];
    }
  }

  /** live_histogram_bucket_index on the rounding of its own request. */
  method LiveHistogramBucketIndex(requested: nat, miniBucket: nat) returns (index: nat)
    requires RoundedAllocationSize(requested).Some?
    requires miniBucket == RoundedAllocationSize(requested).value.bucket
    ensures LowerBound(Value(requested), index)
  {
    hide RoundedAllocationSize, BoundaryAt;
    var value := Value(requested);
    if value <= SMALL_LIMIT {
      SmallIndexIsLowerBound(requested);
      return SmallBucketIndex(value, miniBucket);
    }
    LastSmallBoundary();
    var low, high := LARGE_START, BOUNDARIES;
    while low < high
      invariant LARGE_START <= low <= high <= BOUNDARIES
      invariant BoundaryAt(low - 1) < value
      invariant high < BOUNDARIES ==> value <= BoundaryAt(high)
    {
      var middle := low + (high - low) / 2;
      if BoundaryAt(middle) < value {
        low := middle + 1;
      } else {
        high := middle;
      }
    }
    Bracket(value, low);
    return low;
  }

  lemma LastSmallBoundary()
    ensures BoundaryAt(LARGE_START - 1) == SMALL_LIMIT
  {}
}
