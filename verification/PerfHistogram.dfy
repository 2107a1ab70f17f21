/** PerfHistogram: counters over bucket vectors of any dimension. */
module PerfHistogram {
  import opened MixedRadix

  // ----- counting

  /** How many of the recorded bucket vectors have the raw index `k`. */
  function Count(axes: seq<nat>, h: seq<seq<nat>>, k: nat): nat
    requires forall b :: b in h ==> |b| == |axes|
  {
    if h == [] then 0
    else Count(axes, h[..|h| - 1], k) + if RawIndex(axes, h[|h| - 1], 0) == k then 1 else 0
  }

  /** The sum of the counters below `n` whose index satisfies `p`. */
  function SumWhere(raw: seq<nat>, n: nat, p: nat -> bool): nat
    requires n <= |raw|
  {
    if n == 0 then 0 else SumWhere(raw, n - 1, p) + if p(n - 1) then raw[n - 1] else 0
  }

  predicate Recorded(axes: seq<nat>, h: seq<seq<nat>>) {
    forall b :: b in h ==> ValidBuckets(axes, b)
  }

  /** The counters hold exactly the recorded vectors. */
  ghost predicate Counts(axes: seq<nat>, h: seq<seq<nat>>, raw: seq<nat>) {
    && ValidAxes(axes) && Recorded(axes, h) && |raw| == RawSize(axes)
    && forall k :: 0 <= k < |raw| ==> raw[k] == Count(axes, h, k)
  }

  function Matching(axes: seq<nat>, h: seq<seq<nat>>, p: nat -> bool): nat
    requires forall b :: b in h ==> |b| == |axes|
  {
    if h == [] then 0
    else Matching(axes, h[..|h| - 1], p) + if p(RawIndex(axes, h[|h| - 1], 0)) then 1 else 0
  }

  lemma {:induction false} SumZero(raw: seq<nat>, n: nat, p: nat -> bool)
    requires n <= |raw| && forall k :: 0 <= k < |raw| ==> raw[k] == 0
    ensures SumWhere(raw, n, p) == 0
  {
    if n > 0 { SumZero(raw, n - 1, p); }
  }

  lemma {:induction false} SumBump(raw: seq<nat>, raw': seq<nat>, i: nat, n: nat, p: nat -> bool)
    requires n <= |raw| == |raw'| && i < |raw| && raw' == raw[i := raw[i] + 1]
    ensures SumWhere(raw', n, p) == SumWhere(raw, n, p) + if i < n && p(i) then 1 else 0
  {
    if n > 0 { SumBump(raw, raw', i, n - 1, p); }
  }

  /** Any selection of counters adds up to the number of recorded vectors that fall into it. */
  lemma {:induction false} SumsMatch(axes: seq<nat>, h: seq<seq<nat>>, raw: seq<nat>, p: nat -> bool)
    requires Counts(axes, h, raw)
    ensures SumWhere(raw, |raw|, p) == Matching(axes, h, p)
    decreases |h|
  {
    if h == [] {
      SumZero(raw, |raw|, p);
    } else {
      var init, last := h[..|h| - 1], h[|h| - 1];
      assert last in h && forall b :: b in init ==> b in h;
      var i := RawIndex(axes, last, 0);
      UnrankRank(axes, last);
      var prev := seq(|raw|, k requires 0 <= k < |raw| => Count(axes, init, k));
      assert raw == prev[i := prev[i] + 1];
      SumsMatch(axes, init, prev, p);
      SumBump(prev, raw, i, |raw|, p);
    }
  }

  lemma {:induction false} MatchingAll(axes: seq<nat>, h: seq<seq<nat>>)
    requires Recorded(axes, h)
    ensures Matching(axes, h, k => true) == |h|
  {
    if h != [] {
      assert forall b :: b in h[..|h| - 1] ==> b in h;
      MatchingAll(axes, h[..|h| - 1]);
    }
  }

  /** The counters sum to the number of calls. */
  lemma Conservation(axes: seq<nat>, h: seq<seq<nat>>, raw: seq<nat>)
    requires Counts(axes, h, raw)
    ensures SumWhere(raw, |raw|, k => true) == |h|
  {
    SumsMatch(axes, h, raw, k => true);
    MatchingAll(axes, h);
  }

  // ----- marginals

  function Project(h: seq<seq<nat>>, d: nat): seq<seq<nat>>
    requires forall b :: b in h ==> d < |b|
  {
    if h == [] then [] else Project(h[..|h| - 1], d) + [[h[|h| - 1][d]]]
  }

  /** Position `k` has bucket `b` on axis `d`. */
  predicate OnAxis(axes: seq<nat>, d: nat, b: nat, k: nat) {
    ValidAxes(axes) && d < |axes| && k < RawSize(axes)
    && |Unrank(axes, k)| == |axes| && Unrank(axes, k)[d] == b
  }

  lemma OneAxisIndex(a: nat, b: nat)
    requires b < a
    ensures RawIndex([a], [b], 0) == b && RawSize([a]) == a
  {
    assert [a][1..] == [] && [b][1..] == [];
    TimesZero(a);
    TimesOne(a);
  }

  lemma {:induction false} MatchingOnAxis(axes: seq<nat>, h: seq<seq<nat>>, d: nat, b: nat)
    requires ValidAxes(axes) && Recorded(axes, h) && d < |axes| && b < axes[d]
    ensures (forall v :: v in h ==> d < |v|) && Recorded([axes[d]], Project(h, d))
    ensures Matching(axes, h, (k: nat) => OnAxis(axes, d, b, k)) == Count([axes[d]], Project(h, d), b)
  {
    if h != [] {
      var init, last := h[..|h| - 1], h[|h| - 1];
      assert last in h && forall v :: v in init ==> v in h;
      MatchingOnAxis(axes, init, d, b);
      UnrankRank(axes, last);
      OneAxisIndex(axes[d], last[d]);
      var q := Project(h, d);
      assert q[..|q| - 1] == Project(init, d) && q[|q| - 1] == [last[d]];
      assert forall v :: v in q ==> v in Project(init, d) || v == [last[d]];
    }
  }

  /** Summing over all axes but one gives the one-axis histogram that was fed only the
      buckets of that axis. */
  lemma Marginal(axes: seq<nat>, h: seq<seq<nat>>, raw: seq<nat>, d: nat, one: seq<nat>, b: nat)
    requires Counts(axes, h, raw) && d < |axes| && b < axes[d]
    requires forall v :: v in h ==> d < |v|
    requires Counts([axes[d]], Project(h, d), one)
    ensures b < |one| && SumWhere(raw, |raw|, (k: nat) => OnAxis(axes, d, b, k)) == one[b]
  {
    OneAxisIndex(axes[d], b);
    MatchingOnAxis(axes, h, d, b);
    SumsMatch(axes, h, raw, (k: nat) => OnAxis(axes, d, b, k));
  }

  // ----- the dump

  datatype Event = Enter(level: nat) | Value(value: nat) | Leave(level: nat)

  /** What visit_values reports for the axes that are left, from block `start` on. */
  function Visit(axes: seq<nat>, level: nat, start: nat, raw: seq<nat>): seq<Event>
    requires ValidAxes(axes) && Times(start + 1, RawSize(axes)) <= |raw|
    decreases |axes|, 1, 0
  {
    if axes == [] then TimesOne(start + 1); [Value(raw[start])]
    else
      BlockFits(axes, start);
      [Enter(level)] + VisitRange(axes[1..], level + 1, Times(start, axes[0]), axes[0], raw) + [Leave(level)]
  }

  /** `n` consecutive blocks. */
  function VisitRange(rest: seq<nat>, level: nat, first: nat, n: nat, raw: seq<nat>): seq<Event>
    requires ValidAxes(rest) && Times(first + n, RawSize(rest)) <= |raw|
    decreases |rest| + 1, 0, n
  {
    if n == 0 then [] else
      TimesMonotone(first + n - 1, first + n, RawSize(rest));
      VisitRange(rest, level, first, n - 1, raw) + Visit(rest, level, first + n - 1, raw)
  }

  lemma BlockFits(axes: seq<nat>, start: nat)
    requires axes != []
    ensures Times(Times(start, axes[0]) + axes[0], RawSize(axes[1..])) == Times(start + 1, RawSize(axes))
  {
    hide Times;
    TimesStep(start, axes[0]);
    TimesCommute(start + 1, axes[0], RawSize(axes[1..]));
  }

  /** A reader of the dump: it tracks its position by the nesting alone. */
  datatype Reader = Reader(ok: bool, stack: seq<nat>, seen: seq<(seq<nat>, nat)>)

  function Bump(stack: seq<nat>): seq<nat> {
    if stack == [] then [] else stack[|stack| - 1 := stack[|stack| - 1] + 1]
  }

  /** Arrays open and close in order, values sit in the innermost array, and every element
      of an array has the next position in it. */
  function ReadEvent(dims: nat, r: Reader, e: Event): Reader {
    match e
    case Enter(level) => Reader(r.ok && level == |r.stack|, r.stack + [0], r.seen)
    case Value(v) => Reader(r.ok && |r.stack| == dims, Bump(r.stack), r.seen + [(r.stack, v)])
    case Leave(level) =>
      if r.stack == [] then r.(ok := false)
      else Reader(r.ok && level + 1 == |r.stack|, Bump(r.stack[..|r.stack| - 1]), r.seen)
  }

  function ReadAll(dims: nat, r: Reader, es: seq<Event>): Reader {
    if es == [] then r else ReadEvent(dims, ReadAll(dims, r, es[..|es| - 1]), es[|es| - 1])
  }

  lemma {:induction false} ReadAppend(dims: nat, r: Reader, a: seq<Event>, b: seq<Event>)
    ensures ReadAll(dims, r, a + b) == ReadAll(dims, ReadAll(dims, r, a), b)
  {
    if b == [] {
      assert a + b == a;
    } else {
      assert (a + b)[..|a + b| - 1] == a + b[..|b| - 1];
      ReadAppend(dims, r, a, b[..|b| - 1]);
    }
  }

  /** All counters of a block with their full positions, in index order. */
  function Entries(axes: seq<nat>, pos: seq<nat>, start: nat, raw: seq<nat>): seq<(seq<nat>, nat)>
    requires ValidAxes(axes) && Times(start + 1, RawSize(axes)) <= |raw|
  {
    seq(RawSize(axes), k requires 0 <= k < RawSize(axes) =>
      EntriesBound(axes, start, k, raw);
      (pos + Unrank(axes, k), raw[Times(start, RawSize(axes)) + k]))
  }

  lemma EntriesBound(axes: seq<nat>, start: nat, k: nat, raw: seq<nat>)
    requires Times(start + 1, RawSize(axes)) <= |raw| && k < RawSize(axes)
    ensures Times(start, RawSize(axes)) + k < |raw|
  {
    hide Times;
    TimesStep(start, RawSize(axes));
  }

  function RangeEntries(rest: seq<nat>, pos: seq<nat>, first: nat, n: nat, raw: seq<nat>): seq<(seq<nat>, nat)>
    requires ValidAxes(rest) && Times(first + n, RawSize(rest)) <= |raw|
  {
    TimesPlus(first, n, RawSize(rest));
    RawSizePositive(rest);
    seq(Times(n, RawSize(rest)), k requires 0 <= k < Times(n, RawSize(rest)) =>
      (pos + [Div(k, RawSize(rest))] + Unrank(rest, Mod(k, RawSize(rest))), raw[Times(first, RawSize(rest)) + k]))
  }

  /** The entries of a block are those of its sub-blocks. */
  lemma EntriesSplit(axes: seq<nat>, pos: seq<nat>, start: nat, raw: seq<nat>)
    requires ValidAxes(axes) && axes != [] && Times(start + 1, RawSize(axes)) <= |raw|
    ensures Times(Times(start, axes[0]) + axes[0], RawSize(axes[1..])) <= |raw|
    ensures Entries(axes, pos, start, raw) == RangeEntries(axes[1..], pos, Times(start, axes[0]), axes[0], raw)
  {
    hide Times, Div, Mod;
    BlockFits(axes, start);
    var rest, n := axes[1..], RawSize(axes[1..]);
    RawSizePositive(rest);
    TimesCommute(start, axes[0], n);
    var es, rs := Entries(axes, pos, start, raw), RangeEntries(rest, pos, Times(start, axes[0]), axes[0], raw);
    forall k | 0 <= k < RawSize(axes) ensures es[k] == rs[k] {
      assert pos + Unrank(axes, k) == pos + [Div(k, n)] + Unrank(rest, Mod(k, n));
    }
  }

  lemma RangeSnoc(rest: seq<nat>, pos: seq<nat>, first: nat, n: nat, raw: seq<nat>)
    requires ValidAxes(rest) && n > 0 && Times(first + n, RawSize(rest)) <= |raw|
    ensures Times(first + n - 1, RawSize(rest)) <= |raw|
    ensures RangeEntries(rest, pos, first, n, raw)
         == RangeEntries(rest, pos, first, n - 1, raw) + Entries(rest, pos + [n - 1], first + n - 1, raw)
  {
    hide Times, Div, Mod;
    var s := RawSize(rest);
    RawSizePositive(rest);
    TimesMonotone(first + n - 1, first + n, s);
    TimesStep(n - 1, s);
    TimesPlus(first, n - 1, s);
    var all, init, last := RangeEntries(rest, pos, first, n, raw), RangeEntries(rest, pos, first, n - 1, raw),
      Entries(rest, pos + [n - 1], first + n - 1, raw);
    forall k | 0 <= k < |all| ensures all[k] == (init + last)[k] {
      if k >= |init| {
        DivModUnique(k, s, n - 1, k - |init|);
      }
    }
  }

  lemma {:induction false} VisitReads(axes: seq<nat>, level: nat, start: nat, raw: seq<nat>, dims: nat, r: Reader)
    requires ValidAxes(axes) && Times(start + 1, RawSize(axes)) <= |raw|
    requires r.ok && |r.stack| == level && dims == level + |axes|
    ensures ReadAll(dims, r, Visit(axes, level, start, raw))
         == Reader(true, Bump(r.stack), r.seen + Entries(axes, r.stack, start, raw))
    decreases |axes|, 1, 0
  {
    hide Times, RangeEntries;
    if axes == [] {
      TimesOne(start + 1);
      TimesOne(start);
      var es := Visit(axes, level, start, raw);
      assert es[..0] == [] && ReadAll(dims, r, []) == r;
      assert r.stack + Unrank(axes, 0) == r.stack;
      assert Entries(axes, r.stack, start, raw) == [(r.stack, raw[start])];
    } else {
      BlockFits(axes, start);
      var rest, first := axes[1..], Times(start, axes[0]);
      var mid := VisitRange(rest, level + 1, first, axes[0], raw);
      var r1 := Reader(true, r.stack + [0], r.seen);
      ReadOne(dims, r, Enter(level));
      RangeReads(rest, level + 1, r.stack, first, axes[0], raw, dims, r1);
      ReadAppend(dims, r, [Enter(level)], mid);
      var r2 := ReadAll(dims, r1, mid);
      ReadAppend(dims, r, [Enter(level)] + mid, [Leave(level)]);
      ReadOne(dims, r2, Leave(level));
      assert r2.stack[..|r2.stack| - 1] == r.stack;
      EntriesSplit(axes, r.stack, start, raw);
    }
  }

  lemma ReadOne(dims: nat, r: Reader, e: Event)
    ensures ReadAll(dims, r, [e]) == ReadEvent(dims, r, e)
  {
    assert [e][..0] == [];
    assert ReadAll(dims, r, []) == r;
  }

  lemma RangeEmpty(rest: seq<nat>, pos: seq<nat>, first: nat, raw: seq<nat>)
    requires ValidAxes(rest) && Times(first, RawSize(rest)) <= |raw|
    ensures RangeEntries(rest, pos, first, 0, raw) == []
  {
  }

  lemma {:induction false} RangeReads(rest: seq<nat>, level: nat, pos: seq<nat>, first: nat, n: nat, raw: seq<nat>,
    dims: nat, r: Reader)
    requires ValidAxes(rest) && Times(first + n, RawSize(rest)) <= |raw|
    requires r.ok && r.stack == pos + [0] && level == |pos| + 1 && dims == level + |rest|
    ensures ReadAll(dims, r, VisitRange(rest, level, first, n, raw))
         == Reader(true, pos + [n], r.seen + RangeEntries(rest, pos, first, n, raw))
    decreases |rest| + 1, 0, n
  {
    hide Times, Entries, RangeEntries, ReadAll, Visit, Bump;
    if n == 0 {
      RangeEmpty(rest, pos, first, raw);
      ReadNone(dims, r);
    } else {
      TimesMonotone(first + n - 1, first + n, RawSize(rest));
      var init := VisitRange(rest, level, first, n - 1, raw);
      var es := RangeEntries(rest, pos, first, n - 1, raw);
      var r1 := Reader(true, pos + [n - 1], r.seen + es);
      RangeReads(rest, level, pos, first, n - 1, raw, dims, r);
      VisitReads(rest, level, first + n - 1, raw, dims, r1);
      ReadAppend(dims, r, init, Visit(rest, level, first + n - 1, raw));
      RangeSnoc(rest, pos, first, n, raw);
      BumpLast(pos, n - 1);
      SeqAssoc(r.seen, es, Entries(rest, pos + [n - 1], first + n - 1, raw));
    }
  }

  lemma ReadNone(dims: nat, r: Reader)
    ensures ReadAll(dims, r, []) == r
    ensures r.seen + [] == r.seen
  {
  }

  lemma BumpLast(pos: seq<nat>, n: nat)
    ensures Bump(pos + [n]) == pos + [n + 1]
  {
  }

  lemma SeqAssoc<T>(a: seq<T>, b: seq<T>, c: seq<T>)
    ensures (a + b) + c == a + (b + c)
  {
  }

  /** The dump is properly nested, lists every counter once in index order, and a reader who
      goes by the nesting finds at every position the counter of that bucket vector. */
  lemma DumpReadsBack(axes: seq<nat>, raw: seq<nat>)
    requires ValidAxes(axes) && |raw| == RawSize(axes)
    ensures
      var r := ReadAll(|axes|, Reader(true, [], []), Visit(axes, 0, 0, raw));
      && r.ok && r.stack == [] && |r.seen| == |raw|
      && forall k :: 0 <= k < |raw| ==>
           r.seen[k] == (Unrank(axes, k), raw[k]) && ValidBuckets(axes, r.seen[k].0)
             && RawIndex(axes, r.seen[k].0, 0) == k
  {
    hide Times, Unrank, Visit, ReadAll, RawIndex, RawSize;
    TimesOne(RawSize(axes));
    VisitReads(axes, 0, 0, raw, |axes|, Reader(true, [], []));
    var es := Entries(axes, [], 0, raw);
    assert [] + es == es;
    forall k | 0 <= k < |raw|
      ensures es[k] == (Unrank(axes, k), raw[k]) && ValidBuckets(axes, es[k].0) && RawIndex(axes, es[k].0, 0) == k
    {
      assert [] + Unrank(axes, k) == Unrank(axes, k);
      RankUnrank(axes, k);
    }
  }

  // ----- the histogram

  const INT32_MAX: int := 0x7fff_ffff

  class Histogram {
    const axes: seq<nat>
    const raw: array<nat>
    ghost var history: seq<seq<nat>>  // the bucket vectors counted since the last reset

    ghost predicate Valid()
      reads this, raw
    {
      Counts(axes, history, raw[..])
    }

    /** The counters start out with arbitrary values; `Reset` makes the histogram valid. */
    constructor (axes: seq<nat>)
      requires ValidAxes(axes)
      ensures this.axes == axes && fresh(raw) && raw.Length == RawSize(axes)
    {
      var size := GetRawSize(axes);
      this.axes := axes;
      raw := new nat[size];
      history := [];
    }

    static method GetRawSize(axes: seq<nat>) returns (ret: nat)
      ensures ret == RawSize(axes)
    {
      hide Times;
      ret := 1;
      for i := 0 to |axes|
        invariant ret == RawSize(axes[..i])
      {
        assert axes[..i + 1] == axes[..i] + [axes[i]];
        RawSizeSnoc(axes[..i], axes[i]);
        ret := Times(ret, axes[i]);
      }
      assert axes[..|axes|] == axes;
    }

    method Reset()
      requires ValidAxes(axes) && raw.Length == RawSize(axes)
      modifies this, raw
      ensures Valid() && history == []
    {
      var i := raw.Length;
      while i > 0
        invariant 0 <= i <= raw.Length
        invariant forall k :: i <= k < raw.Length ==> raw[k] == 0
      {
        i := i - 1;
        raw[i] := 0;
      }
      history := [];
    }

    method IncBucket(bs: seq<nat>)
      requires Valid() && ValidBuckets(axes, bs)
      modifies `history, raw
      ensures Valid() && history == old(history) + [bs]
    {
      var index := RawIndex(axes, bs, 0);
      Bumped(axes, history, raw[..], bs);
      raw[index] := raw[index] + 1;
      history := history + [bs];
      assert raw[..] == old(raw[..])[index := old(raw[..])[index] + 1];
    }

    /** Counts a vector of values through the given bucket evaluator. */
    method Inc(values: seq<int>, bucketFor: (int, nat) -> nat)
      requires Valid() && |values| == |axes|
      requires forall v, d :: 0 <= d < |axes| ==> bucketFor(v, d) < axes[d]
      modifies `history, raw
      ensures Valid() && |history| == |old(history)| + 1 && old(history) <= history
      ensures history[|history| - 1] == seq(|axes|, d requires 0 <= d < |axes| => bucketFor(values[d], d))
    {
      var bs := seq(|axes|, d requires 0 <= d < |axes| => bucketFor(values[d], d));
      forall d | 0 <= d < |bs| ensures bs[d] < axes[d] {
        var v := values[d];
        assert bs[d] == bucketFor(v, d) && bucketFor(v, d) < axes[d];
      }
      IncBucket(bs);
    }

    method ReadBucket(bs: seq<nat>) returns (count: nat)
      requires Valid() && ValidBuckets(axes, bs)
      ensures count == Count(axes, history, RawIndex(axes, bs, 0))
      ensures count == multiset(history)[bs]
    {
      var index := RawIndex(axes, bs, 0);
      UnrankRank(axes, bs);
      count := raw[index];
      CountIsMultiplicity(axes, history, bs);
    }

    /** Dumps all counters, recursing over the axes.  The source carries the start index as a
        32-bit integer and steps it once past the last block; `ok` says that it never leaves
        its width, which is so exactly when the counters left to visit end within it. */
    method VisitValues(level: nat, start: nat) returns (ok: bool, events: seq<Event>)
      requires Valid() && level <= |axes| && Times(start + 1, RawSize(axes[level..])) <= raw.Length
      ensures ok <==> level == |axes| || Times(start + 1, RawSize(axes[level..])) <= INT32_MAX
      ensures ok ==> events == Visit(axes[level..], level, start, raw[..])
      decreases |axes| - level, 1
    {
      hide Times, Counts;
      if level == |axes| {
        TimesOne(start + 1);
        return true, [Value(raw[start])];
      }
      var first := Times(start, axes[level]);
      ghost var rest, here := axes[level + 1..], axes[level..];
      assert here[0] == axes[level] && here[1..] == rest;
      AxesValid();
      BlockFits(here, start);
      BlockPositions(rest, first, axes[level]);
      if rest == [] { TimesOne(first + axes[level]); }
      ok, events := VisitBlocks(level, first);
      if ok { events := [Enter(level)] + events + [Leave(level)]; }
    }

    lemma AxesValid()
      requires Valid()
      ensures ValidAxes(axes) && |raw[..]| == raw.Length
    {
    }

    /** The blocks of one axis, from index `first` on. */
    method VisitBlocks(level: nat, first: nat) returns (ok: bool, events: seq<Event>)
      requires Valid() && level < |axes| && Times(first + axes[level], RawSize(axes[level + 1..])) <= raw.Length
      ensures
        var n, rest := first + axes[level], axes[level + 1..];
        ok <==> n <= INT32_MAX && (rest == [] || Times(n, RawSize(rest)) <= INT32_MAX)
      ensures ok ==> events == VisitRange(axes[level + 1..], level + 1, first, axes[level], raw[..])
      decreases |axes| - level, 0
    {
      hide Times, Counts, VisitRange, Visit, RawSize;
      ghost var rest := axes[level + 1..];
      AxesValid();
      if first > INT32_MAX { return false, []; }
      TimesMonotone(first, first + axes[level], RawSize(rest));
      VisitNone(rest, level + 1, first, raw[..]);
      events := [];
      var i := 0;
      while i < axes[level]
        invariant 0 <= i <= axes[level] && Times(first + i, RawSize(rest)) <= raw.Length
        invariant first + i <= INT32_MAX && (rest != [] && i > 0 ==> Times(first + i, RawSize(rest)) <= INT32_MAX)
        invariant events == VisitRange(rest, level + 1, first, i, raw[..])
      {
        TimesMonotone(first + i + 1, first + axes[level], RawSize(rest));
        var fits, sub := VisitValues(level + 1, first + i);
        if !fits || first + i + 1 > INT32_MAX { return false, []; }
        VisitNext(rest, level + 1, first, i, raw[..]);
        events := events + sub;
        i := i + 1;
      }
      ok := true;
    }

    /** The whole dump. */
    method DumpValues() returns (ok: bool, events: seq<Event>)
      requires Valid()
      ensures ok <==> axes == [] || RawSize(axes) <= INT32_MAX
      ensures ok ==> events == Visit(axes, 0, 0, raw[..])
    {
      hide Times;
      TimesOne(RawSize(axes));
      assert axes[0..] == axes;
      ok, events := VisitValues(0, 0);
    }
  }

  lemma VisitNone(rest: seq<nat>, level: nat, first: nat, raw: seq<nat>)
    requires ValidAxes(rest) && Times(first, RawSize(rest)) <= |raw|
    ensures VisitRange(rest, level, first, 0, raw) == []
  {
  }

  lemma VisitNext(rest: seq<nat>, level: nat, first: nat, i: nat, raw: seq<nat>)
    requires ValidAxes(rest) && Times(first + i + 1, RawSize(rest)) <= |raw| && Times(first + i, RawSize(rest)) <= |raw|
    ensures VisitRange(rest, level, first, i + 1, raw)
         == VisitRange(rest, level, first, i, raw) + Visit(rest, level, first + i, raw)
  {
    hide Times, Visit;
  }

  /** No position inside a block is beyond the end of its counters. */
  lemma BlockPositions(rest: seq<nat>, first: nat, n: nat)
    requires ValidAxes(rest)
    ensures first + n <= Times(first + n, RawSize(rest))
  {
    RawSizePositive(rest);
    TimesAbove(first + n, RawSize(rest));
  }

  lemma TimesAbove(a: nat, b: nat)
    requires b > 0
    ensures a <= Times(a, b)
  {
    assert a * (b - 1) >= 0;
  }

  lemma Bumped(axes: seq<nat>, h: seq<seq<nat>>, raw: seq<nat>, bs: seq<nat>)
    requires Counts(axes, h, raw) && ValidBuckets(axes, bs)
    ensures RawIndex(axes, bs, 0) < |raw|
    ensures Counts(axes, h + [bs], raw[RawIndex(axes, bs, 0) := raw[RawIndex(axes, bs, 0)] + 1])
  {
    UnrankRank(axes, bs);
    assert (h + [bs])[..|h + [bs]| - 1] == h;
  }

  /** No two bucket vectors share a counter. */
  lemma {:induction false} CountIsMultiplicity(axes: seq<nat>, h: seq<seq<nat>>, bs: seq<nat>)
    requires ValidAxes(axes) && Recorded(axes, h) && ValidBuckets(axes, bs)
    ensures Count(axes, h, RawIndex(axes, bs, 0)) == multiset(h)[bs]
  {
    if h != [] {
      var init, last := h[..|h| - 1], h[|h| - 1];
      assert h == init + [last] && last in h && forall b :: b in init ==> b in h;
      CountIsMultiplicity(axes, init, bs);
      UnrankRank(axes, bs);
      UnrankRank(axes, last);
    }
  }
}
