/**
 How much of the disk stays free when partition 4 is grown (calculateFreePercent, the size check of
 CopyRegistryData and the choice of growpart's option in OverwriteOsImage, in src/ops/ops.go).

 Sizes are 64-bit integers and every operation on them may wrap around.
 */
module FreeSpace {
  import opened Wrappers

  /** The disk as lsblk lists it. */
  datatype Disk = Disk(size: int64, partitions: seq<int64>)

  /** A percentage, an error, or the panic of a division by zero. */
  datatype Outcome = Percent(percent: int64) | Failed | Panic

  function Sum(sizes: seq<int64>): int {
    if |sizes| == 0 then 0 else Sum(sizes[..|sizes| - 1]) + sizes[|sizes| - 1]
  }

  /** Go's division, which truncates. */
  function Quotient(a: int, b: int): int
    requires b != 0
  {
    if (a < 0) == (b < 0) then Abs(a) / Abs(b) else -(Abs(a) / Abs(b))
  }

  function Abs(a: int): nat {
    if a < 0 then -a else a
  }

  lemma Wrap(a: int, b: int)
    ensures Int64(Int64(a) + b) == Int64(a + b)
  {
  }

  function FreePercent(disk: Disk, required: int): Outcome {
    var total := Int64(Sum(disk.partitions) + required);
    if total >= disk.size then Percent(0)
    else if disk.size == 0 then Panic
    else Percent(Int64(Quotient(Int64(Int64(disk.size - total) * 100), disk.size)))
  }

  /** `disk` is None if lsblk fails, cannot be decoded or returns no device. */
  method CalculateFreePercent(disk: Option<Disk>, requiredSize: Option<int64>) returns (r: Outcome)
    ensures r == if disk.None? || |disk.value.partitions| < 4 then Failed
                 else FreePercent(disk.value, if requiredSize.Some? then requiredSize.value
                                              else disk.value.partitions[3])
  {
    if disk.None? {
      return Failed;
    }
    var partitions := disk.value.partitions;
    if |partitions| < 4 {
      return Failed;
    }
    var usedSize: int64 := 0;
    for i := 0 to |partitions|
      invariant usedSize == Int64(Sum(partitions[..i]))
    {
      assert partitions[..i + 1][..i] == partitions[..i];
      Wrap(Sum(partitions[..i]), partitions[i]);
      usedSize := Int64(usedSize + partitions[i]);
    }
    assert partitions[..|partitions|] == partitions;
    var required := if requiredSize.Some? then requiredSize.value else partitions[3];
    Wrap(Sum(partitions), required);
    var totalRequiredSize := Int64(usedSize + required);
    if totalRequiredSize < disk.value.size {
      if disk.value.size == 0 {
        return Panic;
      }
      return Percent(Int64(Quotient(Int64(Int64(disk.value.size - totalRequiredSize) * 100),
                                    disk.value.size)));
    }
    r := Percent(0);
  }

  /** growpart's --free-percent for the registry data, or the error that stops the copying; `size` is
      None if the size of the data cannot be found out. */
  method RegistryFreePercent(size: Option<int64>, disk: Option<Disk>) returns (r: Outcome)
    ensures r == if size.None? || disk.None? || |disk.value.partitions| < 4 then Failed
                 else
                   var p := FreePercent(disk.value, RequestedSize(size.value));
                   if p.Percent? && p.percent < 1 then Failed else p
  {
    if size.None? {
      return Failed;
    }
    var requestedSize := Int64(Quotient(Int64(size.value * 5), 2));
    r := CalculateFreePercent(disk, Some(requestedSize));
    if r.Percent? && r.percent < 1 {
      r := Failed;
    }
  }

  /** Two and a half times the size of the data. */
  function RequestedSize(size: int64): int64 {
    Int64(Quotient(Int64(size * 5), 2))
  }

  /** The same when the image is overwritten, where partition 4 is grown in any case: `option` is
      growpart's --free-percent, None if it is left out. */
  method OverwriteFreePercent(disk: Option<Disk>) returns (r: Outcome, option: Option<int64>)
    ensures r == if disk.None? || |disk.value.partitions| < 4 then Failed
                 else FreePercent(disk.value, disk.value.partitions[3])
    ensures option == if r.Percent? && r.percent > 0 then Some(r.percent) else None
  {
    r := CalculateFreePercent(disk, None);
    option := None;
    if r.Percent? && r.percent > 0 {
      option := Some(r.percent);
    }
  }

  // ---------------------------------------------------------------- without wrap-around

  /** No size is negative, and neither the total nor the hundredfold of what it leaves of the disk wraps
      around. The partitions need not fit on the disk. */
  ghost predicate Sound(disk: Disk, required: int) {
    && (forall i | 0 <= i < |disk.partitions| :: disk.partitions[i] >= 0) && required >= 0
    && Sum(disk.partitions) + required <= MAX_INT64
    && 100 * (disk.size - Sum(disk.partitions) - required) <= MAX_INT64
  }

  /** On a disk of up to a hundredth of the integer range the product is no obstacle; the total is none
      either if it can be added up. */
  lemma SmallDiskIsSound(disk: Disk, required: int)
    requires forall i | 0 <= i < |disk.partitions| :: disk.partitions[i] >= 0
    requires required >= 0 && Sum(disk.partitions) + required <= MAX_INT64
    requires 100 * disk.size <= MAX_INT64
    ensures Sound(disk, required)
  {
    SumNotNegative(disk.partitions);
  }

  /** Nothing wraps around when partitions that fit on a disk of up to (2^63-1)/100 bytes are to make
      room for registry data of up to (2^63-1)/5 bytes. */
  lemma RegistryNeverWraps(disk: Disk, size: int64)
    requires forall i | 0 <= i < |disk.partitions| :: disk.partitions[i] >= 0
    requires Sum(disk.partitions) <= disk.size && 100 * disk.size <= MAX_INT64
    requires 0 <= size && 5 * size <= MAX_INT64
    ensures Sound(disk, RequestedSize(size))
    ensures 2 * RequestedSize(size) <= 5 * size < 2 * RequestedSize(size) + 2
  {
    RequestedIsTwoAndAHalf(size);
    SmallDiskIsSound(disk, RequestedSize(size));
  }

  /** `p` is the largest whole percentage of the disk that `free` bytes can hold. */
  predicate LargestPercent(p: int, size: int, free: int) {
    p * size <= 100 * free < (p + 1) * size
  }

  lemma QuotientIsLargest(free: int, size: int)
    requires 0 < size && 0 <= free
    ensures LargestPercent(Quotient(100 * free, size), size, free)
    ensures Quotient(100 * free, size) >= 0
  {
    var q := 100 * free / size;
    assert Quotient(100 * free, size) == q;
    assert 100 * free == size * q + 100 * free % size;
    assert (q + 1) * size == q * size + size;
  }

  lemma LaterQuotient(n: nat, x: nat, size: int)
    requires size > 0 && x >= n + size
    ensures n / size < x / size
  {
  }

  /** The hundredfold of what is free wraps around to something at least a whole disk smaller. */
  lemma WrappedQuotient(x: int, size: int64)
    requires 0 < size && x > MAX_INT64
    ensures Quotient(Int64(x), size) < Quotient(x, size)
  {
    LaterQuotient(0, x, size);
    WrapsDown(x);
    if Int64(x) >= 0 {
      LaterQuotient(Int64(x), x, size);
    } else {
      NegativeQuotient(Int64(x), size);
    }
  }

  lemma WrapsDown(x: int)
    requires x > MAX_INT64
    ensures x >= Int64(x) + 0x1_0000_0000_0000_0000
  {
  }

  lemma NegativeQuotient(a: int, size: int)
    requires a < 0 < size
    ensures Quotient(a, size) <= 0
  {
  }

  /** The answer wanted: the largest whole percentage that leaves room, 0 if there is no room. */
  predicate Right(r: Outcome, size: int, free: int) {
    r.Percent? && if free > 0 then LargestPercent(r.percent, size, free) else r.percent == 0
  }

  /** If what is used and required can be added up without wrapping around, the answer is right exactly
      when the hundredfold of what is left does not wrap around. */
  lemma LargestIffNoWrap(disk: Disk, required: int)
    requires 0 <= Sum(disk.partitions) + required <= MAX_INT64
    ensures var free := disk.size - Sum(disk.partitions) - required;
            Right(FreePercent(disk, required), disk.size, free) <==> 100 * free <= MAX_INT64
  {
    var free := disk.size - Sum(disk.partitions) - required;
    if free > 0 {
      QuotientIsLargest(free, disk.size);
      AtMostHundred(free, disk.size);
      var p := Quotient(Int64(100 * free), disk.size);
      QuotientFits(Int64(100 * free), disk.size);
      if 100 * free > MAX_INT64 {
        WrappedQuotient(100 * free, disk.size);
        OnlyOneLargest(p, Quotient(100 * free, disk.size), disk.size, free);
      }
    }
  }

  /** The total as it wraps around is not less than the disk, or what it seems to leave of the disk,
      times a hundred and wrapped around itself, is smaller than the disk. */
  predicate HarmlessTotal(size: int64, total: int64) {
    total >= size || Abs(Int64(Int64(size - total) * 100)) < Abs(size)
  }

  lemma QuotientIsZero(a: int64, b: int64)
    requires b != 0
    ensures Int64(Quotient(a, b)) == 0 <==> Abs(a) < Abs(b)
  {
    QuotientOfNats(Abs(a), Abs(b));
  }

  lemma QuotientOfNats(a: nat, b: nat)
    requires b > 0
    ensures a / b == 0 <==> a < b
    ensures a / b <= a
  {
    var q := a / b;
    assert a == b * q + a % b && 0 <= a % b < b;
    Multiple(q, b);
  }

  lemma Multiple(q: nat, b: nat)
    requires b > 0
    ensures b * q >= q
    ensures q > 0 ==> b * q >= b
  {
  }

  /**
   For all sizes, the answer is right exactly when either the total does not wrap around and neither does
   the hundredfold of what it leaves, or the total does and happens to be harmless.
   */
  lemma RightIff(disk: Disk, required: int)
    requires 0 <= Sum(disk.partitions) + required
    ensures var total := Sum(disk.partitions) + required;
            Right(FreePercent(disk, required), disk.size, disk.size - total)
            <==> if total <= MAX_INT64 then 100 * (disk.size - total) <= MAX_INT64
                 else HarmlessTotal(disk.size, Int64(total))
  {
    var total := Sum(disk.partitions) + required;
    if total <= MAX_INT64 {
      LargestIffNoWrap(disk, required);
    } else if Int64(total) < disk.size && disk.size != 0 {
      QuotientIsZero(Int64(Int64(disk.size - Int64(total)) * 100), disk.size);
    }
  }

  /** A total that wraps around does harm: four bytes are used of a disk of a hundred, as much as there
      is in the integer range is required, and still 97 percent are said to be left. */
  lemma WrappedTotalMisleads() returns (disk: Disk)
    ensures disk.size == 100 && |disk.partitions| == 4 && Sum(disk.partitions) == 4
    ensures FreePercent(disk, MAX_INT64) == Percent(97)
    ensures !Right(FreePercent(disk, MAX_INT64), disk.size, disk.size - 4 - MAX_INT64)
  {
    disk := Disk(100, [1, 1, 1, 1]);
    SumOfFour(1, 1, 1, 1);
    WrappedThrice();
  }

  lemma SumOneMore(sizes: seq<int64>, last: int64)
    ensures Sum(sizes + [last]) == Sum(sizes) + last
  {
    assert (sizes + [last])[..|sizes|] == sizes;
  }

  lemma SumOfFour(a: int64, b: int64, c: int64, d: int64)
    ensures Sum([a, b, c, d]) == a + b + c + d
  {
    SumOneMore([], a);
    SumOneMore([a], b);
    SumOneMore([a, b], c);
    SumOneMore([a, b, c], d);
    assert [] + [a] == [a] && [a] + [b] == [a, b] && [a, b] + [c] == [a, b, c];
    assert [a, b, c] + [d] == [a, b, c, d];
  }

  /** The total wraps around to near the smallest integer; what it seems to leave of the disk wraps
      around as well, and times a hundred once more, to 9700. */
  lemma WrappedThrice()
    ensures var total := Int64(4 + MAX_INT64);
            total < 100 && Quotient(Int64(Int64(100 - total) * 100), 100) == 97
  {
    assert Int64(4 + MAX_INT64) == 2 - MAX_INT64;
  }

  lemma QuotientFits(a: int64, size: int64)
    requires size > 0
    ensures Int64(Quotient(a, size)) == Quotient(a, size)
  {
  }

  lemma OnlyOneLargest(p: int, q: int, size: int, free: int)
    requires size > 0 && p < q && LargestPercent(q, size, free)
    ensures !LargestPercent(p, size, free)
  {
  }

  lemma AtMostHundred(free: int, size: int)
    requires 0 < free <= size
    ensures 0 <= Quotient(100 * free, size) <= 100
  {
  }

  /** Without wrap-around the answer is between 0 and 100, the largest percentage that leaves room for
      what is required, and 0 if there is no room at all. */
  lemma SoundDiskPercent(disk: Disk, required: int64)
    requires Sound(disk, required)
    ensures var free, r := disk.size - Sum(disk.partitions) - required, FreePercent(disk, required);
            Right(r, disk.size, free) && 0 <= r.percent <= 100
  {
    SumNotNegative(disk.partitions);
    var free := disk.size - Sum(disk.partitions) - required;
    if free > 0 {
      LargestIffNoWrap(disk, required);
      AtMostHundred(free, disk.size);
      QuotientIsLargest(free, disk.size);
      QuotientFits(100 * free, disk.size);
    }
  }

  lemma {:induction false} SumNotNegative(sizes: seq<int64>)
    requires forall i | 0 <= i < |sizes| :: sizes[i] >= 0
    ensures Sum(sizes) >= 0
  {
    if |sizes| > 0 {
      SumNotNegative(sizes[..|sizes| - 1]);
    }
  }

  /** For data up to a fifth of the integer range two and a half times the size does not wrap around. */
  lemma RequestedIsTwoAndAHalf(size: int64)
    requires 0 <= size && 5 * size <= MAX_INT64
    ensures 2 * RequestedSize(size) <= 5 * size < 2 * RequestedSize(size) + 2
  {
  }

  /** Leaving `p` percent of the disk free, partition 4 gains at least `required` bytes. */
  predicate LeavesRoom(p: int, size: int, used: int, required: int) {
    100 * (size - used) - p * size >= 100 * required
  }

  lemma LargestLeavesRoom(p: int, size: int, used: int, required: int)
    requires used >= 0 && required >= 0
    requires if used + required < size then LargestPercent(p, size, size - used - required) else p == 0
    ensures p >= 1 <==> size > 0 && 100 * (used + required) <= 99 * size
    ensures p >= 1 ==> LeavesRoom(p, size, used, required)
  {
    if p >= 1 {
      assert p * size >= size || size <= 0;
    }
  }

  /** The registry data is copied exactly if it leaves one percent of the disk free; and when the
      percentage is left free, partition 4 gains at least what the data requires. */
  lemma CopiedIffOnePercentLeft(disk: Disk, size: int64) returns (p: int64)
    requires Sound(disk, RequestedSize(size))
    ensures FreePercent(disk, RequestedSize(size)) == Percent(p)
    ensures p >= 1 <==>
              disk.size > 0 && 100 * (Sum(disk.partitions) + RequestedSize(size)) <= 99 * disk.size
    ensures p >= 1 ==> LeavesRoom(p, disk.size, Sum(disk.partitions), RequestedSize(size))
  {
    SumNotNegative(disk.partitions);
    SoundDiskPercent(disk, RequestedSize(size));
    p := FreePercent(disk, RequestedSize(size)).percent;
    LargestLeavesRoom(p, disk.size, Sum(disk.partitions), RequestedSize(size));
  }

  /** When the image is overwritten and something is left free, partition 4 can double its size. */
  lemma OverwriteDoubles(disk: Disk) returns (p: int64)
    requires |disk.partitions| >= 4 && Sound(disk, disk.partitions[3])
    ensures FreePercent(disk, disk.partitions[3]) == Percent(p)
    ensures p > 0 ==> LeavesRoom(p, disk.size, Sum(disk.partitions), disk.partitions[3])
  {
    SumNotNegative(disk.partitions);
    SoundDiskPercent(disk, disk.partitions[3]);
    p := FreePercent(disk, disk.partitions[3]).percent;
    LargestLeavesRoom(p, disk.size, Sum(disk.partitions), disk.partitions[3]);
  }
}
