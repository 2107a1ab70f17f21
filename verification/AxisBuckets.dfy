/** Quantisation of values on one histogram axis, and the value ranges that are published for
    the buckets.
 */
module AxisBuckets {

  datatype Scale = Linear | Log2

  datatype Axis = Axis(scale: Scale, min: int, quantSize: int, buckets: nat)

  const INT64_MIN: int := -0x8000_0000_0000_0000
  const INT64_MAX: int := 0x7fff_ffff_ffff_ffff
  const INT32_MAX: int := 0x7fff_ffff

  predicate In64(x: int) { INT64_MIN <= x <= INT64_MAX }

  /** The constructor's assertions, and the widths of the fields. */
  predicate ValidAxis(ac: Axis) {
    0 < ac.buckets <= INT32_MAX && 0 < ac.quantSize <= INT64_MAX && In64(ac.min)
  }

  function Pow2(n: nat): nat { if n == 0 then 1 else 2 * Pow2(n - 1) }

  function GetQuants(i: nat, scale: Scale): nat
    requires i > 0
  {
    match scale
    case Linear => i
    case Log2 => Pow2(i - 1)
  }

  /** The end of bucket `i`, in quants above the minimum; bucket 0 ends at the minimum. */
  function Quants(i: nat, scale: Scale): nat {
    if i == 0 then 0 else GetQuants(i, scale)
  }

  function Scaled(quants: nat, ac: Axis): int { quants * ac.quantSize }

  /** The value lies in the range of bucket `i`: the first bucket has no lower end and the
      last one no upper end. */
  predicate InBucket(ac: Axis, i: nat, v: int) {
    && i < ac.buckets
    && (i > 0 ==> ac.min + Scaled(Quants(i - 1, ac.scale), ac) <= v)
    && (i < ac.buckets - 1 ==> v < ac.min + Scaled(Quants(i, ac.scale), ac))
  }

  /** The range of a bucket that is neither the first nor the last: on a linear axis one quant
      wide, and on a logarithmic axis doubling from one quant on. */
  lemma BucketBounds(ac: Axis, i: nat, v: int)
    requires 0 < i < ac.buckets - 1
    ensures ac.scale == Linear ==>
      (InBucket(ac, i, v) <==> (i - 1) * ac.quantSize <= v - ac.min < i * ac.quantSize)
    ensures ac.scale == Log2 && i == 1 ==>
      (InBucket(ac, i, v) <==> 0 <= v - ac.min < ac.quantSize)
    ensures ac.scale == Log2 && i > 1 ==>
      (InBucket(ac, i, v) <==> Pow2(i - 2) * ac.quantSize <= v - ac.min < Pow2(i - 1) * ac.quantSize)
  {
    assert Pow2(0) == 1;
  }

  /** The first bucket holds what is below the minimum, and the last one everything above. */
  lemma OuterBuckets(ac: Axis, v: int)
    requires ac.buckets >= 2
    ensures InBucket(ac, 0, v) <==> v < ac.min
    ensures InBucket(ac, ac.buckets - 1, v) <==>
      v >= ac.min + Scaled(Quants(ac.buckets - 2, ac.scale), ac)
  {
    ScaledZero(ac);
  }

  // ----- the ranges are ordered

  lemma {:induction false} QuantsIncrease(i: nat, j: nat, scale: Scale)
    requires i < j
    ensures Quants(i, scale) < Quants(j, scale)
    decreases j
  {
    if scale == Log2 {
      Pow2Positive(j - 1);
      if i > 0 && i < j - 1 {
        QuantsIncrease(i, j - 1, scale);
        Pow2Positive(j - 2);
      } else if i > 0 {
        assert Pow2(j - 1) == 2 * Pow2(j - 2);
        Pow2Positive(j - 2);
      }
    }
  }

  lemma {:induction false} Pow2Positive(n: nat)
    ensures Pow2(n) > 0
  {
    if n > 0 { Pow2Positive(n - 1); }
  }

  lemma ScaledMonotone(a: nat, b: nat, ac: Axis)
    requires ValidAxis(ac) && a <= b
    ensures Scaled(a, ac) <= Scaled(b, ac)
  {
    assert (b - a) * ac.quantSize >= 0;
  }

  /** Quantising compares like the scaled bound. */
  lemma QuantCompare(x: nat, q: nat, ac: Axis)
    requires ValidAxis(ac)
    ensures x / ac.quantSize < q <==> x < Scaled(q, ac)
  {
    var d := ac.quantSize;
    var n := x / d;
    assert x == n * d + x % d;
    if n < q {
      assert (n + 1) * d == n * d + d;
      ScaledMonotone(n + 1, q, ac);
    } else {
      ScaledMonotone(q, n, ac);
    }
  }

  /** The ranges of two buckets do not overlap. */
  lemma BucketUnique(ac: Axis, i: nat, j: nat, v: int)
    requires ValidAxis(ac) && InBucket(ac, i, v) && InBucket(ac, j, v)
    ensures i == j
  {
    hide Scaled, Quants;
    if i < j {
      LowerAboveUpper(ac, i, j);
    } else if j < i {
      LowerAboveUpper(ac, j, i);
    }
  }

  lemma LowerAboveUpper(ac: Axis, i: nat, j: nat)
    requires ValidAxis(ac) && i < j
    ensures Scaled(Quants(i, ac.scale), ac) <= Scaled(Quants(j - 1, ac.scale), ac)
  {
    hide Scaled;
    if i < j - 1 { QuantsIncrease(i, j - 1, ac.scale); }
    ScaledMonotone(Quants(i, ac.scale), Quants(j - 1, ac.scale), ac);
  }

  // ----- 64-bit arithmetic

  lemma PowersOfTwo()
    ensures Pow2(62) == 0x4000_0000_0000_0000 && Pow2(63) == INT64_MAX + 1
  {
    hide Pow2;
    SmallPowers();
    Pow2Add(7, 7);
    Pow2Add(14, 14);
    Pow2Add(28, 28);
    Pow2Add(56, 6);
    Pow2Add(62, 1);
  }

  lemma SmallPowers()
    ensures Pow2(1) == 2 && Pow2(6) == 64 && Pow2(7) == 128
  {
  }

  lemma {:induction false} Pow2Add(a: nat, b: nat)
    ensures Pow2(a + b) == Pow2(a) * Pow2(b)
  {
    if b > 0 {
      Pow2Add(a, b - 1);
      TwiceProduct(Pow2(a), Pow2(b - 1));
    }
  }

  lemma TwiceProduct(x: nat, y: nat)
    ensures x * (2 * y) == 2 * (x * y)
  {
  }

  lemma {:induction false} Pow2Monotone(a: nat, b: nat)
    requires a <= b
    ensures Pow2(a) <= Pow2(b)
  {
    if a < b { Pow2Monotone(a, b - 1); }
  }

  /** Choosing the bucket of a value takes no step out of 64 bits: the distance from the
      minimum fits, one can be added on a linear axis, and on a logarithmic axis of more than
      64 buckets the search ends before it shifts into the sign. */
  predicate Countable(ac: Axis, value: int)
    requires ValidAxis(ac)
  {
    value < ac.min
    || (value - ac.min <= INT64_MAX
        && match ac.scale
           case Linear => (value - ac.min) / ac.quantSize < INT64_MAX
           case Log2 => ac.buckets <= 64 || (value - ac.min) / ac.quantSize < Pow2(62))
  }

  /** Nor does publishing the ranges: there is a value below the minimum, and the end of the
      last bounded bucket fits. */
  predicate Publishable(ac: Axis)
    requires ValidAxis(ac)
  {
    && ac.min > INT64_MIN
    && (ac.buckets > 2 ==> BoundFits(ac, ac.buckets - 2))
  }

  /** The end of bucket `i` is computed without leaving 64 bits. */
  predicate BoundFits(ac: Axis, i: nat) {
    In64(Scaled(Quants(i, ac.scale), ac)) && In64(ac.min + Scaled(Quants(i, ac.scale), ac))
  }

  lemma BoundsFit(ac: Axis, i: nat, j: nat)
    requires ValidAxis(ac) && i <= j && BoundFits(ac, j)
    ensures BoundFits(ac, i)
  {
    hide Scaled, Quants;
    if i < j { QuantsIncrease(i, j, ac.scale); }
    ScaledMonotone(Quants(i, ac.scale), Quants(j, ac.scale), ac);
    ScaledMonotone(0, Quants(i, ac.scale), ac);
    ScaledZero(ac);
  }

  lemma ScaledAbove(q: nat, ac: Axis)
    requires ValidAxis(ac)
    ensures q <= Scaled(q, ac)
  {
    assert q * (ac.quantSize - 1) >= 0;
  }

  // ----- bucket selection

  /** The bucket a value is counted in is the one whose range contains it; `ok` says that no
      step left 64 bits, where the source has no defined result. */
  method GetBucketForAxis(value: int, ac: Axis) returns (ok: bool, b: nat)
    requires ValidAxis(ac) && In64(value)
    ensures ok <==> Countable(ac, value)
    ensures ok ==> InBucket(ac, b, value)
  {
    hide Scaled, Pow2;
    ScaledZero(ac);
    if value < ac.min { return true, 0; }
    if !In64(value - ac.min) { return false, 0; }
    var v := (value - ac.min) / ac.quantSize;
    QuotientNotNegative(value - ac.min, ac);
    match ac.scale {
      case Linear =>
        if !In64(v + 1) { return false, 0; }
        QuantCompare(value - ac.min, v, ac);
        QuantCompare(value - ac.min, v + 1, ac);
        b := if v + 1 < ac.buckets - 1 then v + 1 else ac.buckets - 1;
        if b > 0 { QuantCompare(value - ac.min, b - 1, ac); }
        ok := true;
      case Log2 =>
        ok, b := SearchLog2(value, v, ac);
    }
  }

  /** The search on a logarithmic axis. */
  method SearchLog2(value: int, v: nat, ac: Axis) returns (ok: bool, b: nat)
    requires ValidAxis(ac) && ac.scale == Log2 && In64(value) && ac.min <= value && In64(value - ac.min)
    requires v == (value - ac.min) / ac.quantSize
    ensures ok <==> ac.buckets <= 64 || v < Pow2(62)
    ensures ok ==> InBucket(ac, b, value)
  {
    hide Scaled, Pow2;
    ScaledZero(ac);
    PowersOfTwo();
    var i := 1;
    while i < ac.buckets
      invariant 1 <= i && i <= 64 && (i <= ac.buckets || ac.buckets == 1)
      invariant ac.min + Scaled(Quants(i - 1, Log2), ac) <= value
      invariant i > 1 ==> ac.min + Scaled(Quants(i - 2, Log2), ac) <= value && Pow2(i - 2) <= v
    {
      if !In64(GetQuants(i, Log2)) {
        if i < 64 { Pow2Monotone(i - 1, 62); }
        return false, 0;
      }
      Pow2Monotone(i - 1, 62);
      QuantCompare(value - ac.min, GetQuants(i, Log2), ac);
      if v < GetQuants(i, Log2) { return true, i; }
      i := i + 1;
    }
    return true, ac.buckets - 1;
  }

  lemma ScaledZero(ac: Axis)
    ensures Scaled(0, ac) == 0
  {
  }

  lemma QuotientNotNegative(x: nat, ac: Axis)
    requires ValidAxis(ac)
    ensures x / ac.quantSize >= 0
  {
  }

  // ----- published ranges

  /** Inclusive ranges of values, one per bucket; `ok` says that no step left 64 bits. */
  method GetAxisBucketRanges(ac: Axis) returns (ok: bool, ranges: seq<(int, int)>)
    requires ValidAxis(ac)
    ensures ok <==> Publishable(ac)
    ensures ok ==> |ranges| == ac.buckets
    ensures ok ==> forall i, v :: 0 <= i < |ranges| && In64(v) ==>
      (ranges[i].0 <= v <= ranges[i].1 <==> InBucket(ac, i, v))
  {
    hide Scaled, BoundFits;
    ScaledZero(ac);
    ranges := seq(ac.buckets, _ => (0, 0));
    var min := ac.min;
    var i := 1;
    while i < ac.buckets - 1
      invariant 1 <= i && |ranges| == ac.buckets && (ac.buckets >= 2 ==> i <= ac.buckets - 1)
      invariant ac.buckets >= 2 ==> min == ac.min + Scaled(Quants(i - 1, ac.scale), ac)
      invariant ac.buckets < 2 ==> min == ac.min
      invariant i > 1 ==> BoundFits(ac, i - 1)
      invariant forall k :: 1 <= k < i && k < ac.buckets ==>
        ranges[k] == (ac.min + Scaled(Quants(k - 1, ac.scale), ac), ac.min + Scaled(Quants(k, ac.scale), ac) - 1)
    {
      StepFits(ac, i);
      if !In64(GetQuants(i, ac.scale)) || !In64(Scaled(GetQuants(i, ac.scale), ac))
        || !In64(ac.min + Scaled(GetQuants(i, ac.scale), ac)) {
        if BoundFits(ac, ac.buckets - 2) { BoundsFit(ac, i, ac.buckets - 2); }
        return false, [];
      }
      var maxExclusive := ac.min + Scaled(GetQuants(i, ac.scale), ac);
      ranges := ranges[i := (min, maxExclusive - 1)];
      min := maxExclusive;
      i := i + 1;
    }
    if !In64(ac.min - 1) { return false, []; }
    var last := ac.buckets - 1;
    ranges := ranges[0 := (ranges[0].0, ac.min - 1)];
    ranges := ranges[last := (min, ranges[last].1)];
    ranges := ranges[0 := (INT64_MIN, ranges[0].1)];
    ranges := ranges[last := (ranges[last].0, INT64_MAX)];
    ok := true;
  }

  lemma StepFits(ac: Axis, i: nat)
    requires ValidAxis(ac) && i > 0
    ensures BoundFits(ac, i) <==>
      In64(GetQuants(i, ac.scale)) && In64(Scaled(GetQuants(i, ac.scale), ac))
        && In64(ac.min + Scaled(GetQuants(i, ac.scale), ac))
  {
    hide Scaled;
    ScaledAbove(GetQuants(i, ac.scale), ac);
  }

  /** The published ranges and the counting agree, exactly as long as neither leaves 64 bits:
      one range contains a value, and its bucket is the one that is incremented. */
  method CountedWhereShown(value: int, ac: Axis) returns (ok: bool, b: nat, ranges: seq<(int, int)>)
    requires ValidAxis(ac) && In64(value)
    ensures ok <==> Countable(ac, value) && Publishable(ac)
    ensures ok ==> |ranges| == ac.buckets && b < |ranges|
    ensures ok ==> forall i :: 0 <= i < |ranges| ==> (ranges[i].0 <= value <= ranges[i].1 <==> i == b)
  {
    hide Countable, Publishable;
    var counted, shown;
    counted, b := GetBucketForAxis(value, ac);
    shown, ranges := GetAxisBucketRanges(ac);
    ok := counted && shown;
    if ok {
      forall i | 0 <= i < |ranges| ensures ranges[i].0 <= value <= ranges[i].1 <==> i == b {
        assert ranges[i].0 <= value <= ranges[i].1 <==> InBucket(ac, i, value);
        if InBucket(ac, i, value) { BucketUnique(ac, i, b, value); }
      }
    }
  }
}
