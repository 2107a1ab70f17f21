/** The index arithmetic of PerfHistogram: bucket vectors of any dimension and positions in
    the linear array.
 */
module MixedRadix {

  predicate ValidAxes(axes: seq<nat>) { forall i :: 0 <= i < |axes| ==> axes[i] > 0 }

  predicate ValidBuckets(axes: seq<nat>, bs: seq<nat>) {
    |bs| == |axes| && forall i :: 0 <= i < |bs| ==> bs[i] < axes[i]
  }

  // ----- products, kept apart from everything else

  function Times(a: nat, b: nat): nat { a * b }

  lemma TimesOne(a: nat)
    ensures Times(a, 1) == a && Times(1, a) == a && Times(0, a) == 0
  {
  }

  lemma TimesStep(a: nat, b: nat)
    ensures Times(a + 1, b) == Times(a, b) + b
  {
  }

  lemma TimesPlus(a: nat, b: nat, c: nat)
    ensures Times(a + b, c) == Times(a, c) + Times(b, c)
  {
    assert (a + b) * c == a * c + b * c;
  }

  lemma TimesAssoc(a: nat, b: nat, c: nat)
    ensures Times(Times(a, b), c) == Times(b, Times(a, c))
  {
    assert (a * b) * c == b * (a * c);
  }

  lemma TimesPositive(a: nat, b: nat)
    ensures a > 0 && b > 0 ==> Times(a, b) > 0
  {
    if a > 0 && b > 0 { assert a * b >= 1 * b by { assert (a - 1) * b >= 0; } }
  }

  /** A pair below (a, b) is below their product, with room for the rest. */
  lemma TimesBelow(q: nat, a: nat, b: nat)
    requires q < a
    ensures Times(q, b) + b <= Times(a, b)
  {
    hide Times;
    TimesStep(q, b);
    TimesMonotone(q + 1, a, b);
  }

  function Div(n: nat, d: nat): nat
    requires d > 0
  {
    n / d
  }

  function Mod(n: nat, d: nat): (r: nat)
    requires d > 0
    ensures r < d
  {
    n % d
  }

  lemma DivMod(n: nat, d: nat)
    requires d > 0
    ensures n == Times(Div(n, d), d) + Mod(n, d)
  {
  }

  lemma DivModUnique(n: nat, d: nat, q: nat, r: nat)
    requires d > 0 && r < d && n == Times(q, d) + r
    ensures Div(n, d) == q && Mod(n, d) == r
  {
    hide Times, Div, Mod;
    DivMod(n, d);
    if Div(n, d) < q {
      TimesBelow(Div(n, d), q, d);
    } else if q < Div(n, d) {
      TimesBelow(q, Div(n, d), d);
    }
  }

  lemma DivBound(n: nat, d: nat, a: nat)
    requires d > 0 && n < Times(a, d)
    ensures Div(n, d) < a
  {
    hide Times, Div;
    DivMod(n, d);
    if Div(n, d) >= a { TimesMonotone(a, Div(n, d), d); }
  }

  lemma TimesMonotone(a: nat, b: nat, c: nat)
    requires a <= b
    ensures Times(a, c) <= Times(b, c)
  {
    assert (b - a) * c >= 0;
  }

  // ----- sizes and indices

  /** The number of counters. */
  function RawSize(axes: seq<nat>): nat {
    if axes == [] then 1 else Times(axes[0], RawSize(axes[1..]))
  }

  lemma {:induction false} RawSizePositive(axes: seq<nat>)
    requires ValidAxes(axes)
    ensures RawSize(axes) > 0
  {
    if axes != [] {
      RawSizePositive(axes[1..]);
      TimesPositive(axes[0], RawSize(axes[1..]));
    }
  }

  lemma {:induction false} RawSizeSnoc(axes: seq<nat>, a: nat)
    ensures RawSize(axes + [a]) == Times(RawSize(axes), a)
  {
    hide Times;
    if axes == [] {
      assert axes + [a] == [a] && [a][1..] == [] && RawSize([]) == 1;
      TimesOne(a);
    } else {
      assert (axes + [a])[1..] == axes[1..] + [a];
      RawSizeSnoc(axes[1..], a);
      TimesCommute(axes[0], RawSize(axes[1..]), a);
    }
  }

  lemma TimesCommute(a: nat, b: nat, c: nat)
    ensures Times(a, Times(b, c)) == Times(Times(a, b), c)
  {
    assert a * (b * c) == (a * b) * c;
  }

  /** get_raw_index_internal on bucket numbers. */
  function RawIndex(axes: seq<nat>, bs: seq<nat>, start: nat): nat
    requires |bs| == |axes|
    decreases |axes|
  {
    if axes == [] then start else RawIndex(axes[1..], bs[1..], Times(axes[0], start) + bs[0])
  }

  /** The index is the start block plus an offset within the block. */
  lemma {:induction false} RawIndexOffset(axes: seq<nat>, bs: seq<nat>, start: nat)
    requires ValidBuckets(axes, bs)
    ensures RawIndex(axes, bs, start) == Times(start, RawSize(axes)) + RawIndex(axes, bs, 0)
    ensures RawIndex(axes, bs, 0) < RawSize(axes)
    decreases |axes|
  {
    hide Times;
    if axes == [] {
      TimesOne(start);
    } else {
      var a, b, rest, n := axes[0], bs[0], axes[1..], RawSize(axes[1..]);
      RawIndexOffset(rest, bs[1..], Times(a, start) + b);
      RawIndexOffset(rest, bs[1..], Times(a, 0) + b);
      TimesPlus(Times(a, start), b, n);
      TimesAssoc(a, start, n);
      TimesZero(a);
      TimesBelow(b, a, n);
    }
  }

  lemma TimesZero(a: nat)
    ensures Times(a, 0) == 0
  {
  }

  /** The bucket vector at a position. */
  function Unrank(axes: seq<nat>, k: nat): (bs: seq<nat>)
    requires ValidAxes(axes)
    decreases |axes|
  {
    if axes == [] then [] else
      RawSizePositive(axes[1..]);
      [Div(k, RawSize(axes[1..]))] + Unrank(axes[1..], Mod(k, RawSize(axes[1..])))
  }

  /** Every position below the size is the index of its own bucket vector ... */
  lemma {:induction false} RankUnrank(axes: seq<nat>, k: nat)
    requires ValidAxes(axes) && k < RawSize(axes)
    ensures ValidBuckets(axes, Unrank(axes, k)) && RawIndex(axes, Unrank(axes, k), 0) == k
    decreases |axes|
  {
    hide Times, Div, Mod;
    if axes != [] {
      var rest, n := axes[1..], RawSize(axes[1..]);
      RawSizePositive(rest);
      var q, r := Div(k, n), Mod(k, n);
      RankUnrank(rest, r);
      DivBound(k, n, axes[0]);
      DivMod(k, n);
      var bs := Unrank(axes, k);
      assert bs[1..] == Unrank(rest, r) && bs[0] == q;
      TimesZero(axes[0]);
      RawIndexOffset(rest, bs[1..], q);
    }
  }

  /** ... and every bucket vector is the one at its index. */
  lemma {:induction false} UnrankRank(axes: seq<nat>, bs: seq<nat>)
    requires ValidAxes(axes) && ValidBuckets(axes, bs)
    ensures RawIndex(axes, bs, 0) < RawSize(axes) && Unrank(axes, RawIndex(axes, bs, 0)) == bs
    decreases |axes|
  {
    hide Times, Div, Mod;
    RawIndexOffset(axes, bs, 0);
    if axes != [] {
      var rest, n, k := axes[1..], RawSize(axes[1..]), RawIndex(axes, bs, 0);
      RawSizePositive(rest);
      TimesZero(axes[0]);
      RawIndexOffset(rest, bs[1..], bs[0]);
      DivModUnique(k, n, bs[0], RawIndex(rest, bs[1..], 0));
      UnrankRank(rest, bs[1..]);
      assert bs == [bs[0]] + bs[1..];
    }
  }
}
