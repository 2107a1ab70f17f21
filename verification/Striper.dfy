/** SimpleRADOSStriper: one growing file kept in fixed-size objects. */
module SimpleStriper {
  import opened Wrappers
  import opened Rados
  import opened OsdRuns
  import opened PoolIO
  import opened Extents
  import opened StriperState

  /** Requests were issued on the objects in [lo, hi) only. */
  ghost predicate OnlyTouched(a: Osd, b: Osd, lo: nat, hi: nat) {
    b.clean ==> a.clean && forall k: nat :: !(lo <= k < hi) ==> View(b, k) == View(a, k)
  }

  lemma TouchedNothing(s: Osd, lo: nat, hi: nat)
    ensures OnlyTouched(s, s, lo, hi)
  {
  }

  lemma EvolvesTouched(a: Osd, b: Osd, c: Osd, lo: nat, hi: nat)
    requires OnlyTouched(a, b, lo, hi) && Evolves(b, c)
    ensures OnlyTouched(a, c, lo, hi)
  {
  }

  lemma TouchedMore(a: Osd, b: Osd, c: Osd, k: nat, lo: nat, hi: nat)
    requires OnlyTouched(a, b, lo, hi) && Evolves(Submit(b, k, Remove), c) && lo <= k < hi
    ensures OnlyTouched(a, c, lo, hi)
  {
    SubmitView(b, k, Remove);
  }

  /** Outside [lo, hi) no removal was submitted between `a` and `b`, and what was stored for
      good in `a` still is, whatever failed on the way. */
  ghost predicate Spared(a: Osd, b: Osd, lo: nat, hi: nat) {
    forall k: nat :: !(lo <= k < hi) ==>
      (Stays(a, k) ==> Stays(b, k)) && forall r :: r in Queue(b, k) && r.op.Remove? ==> r in Queue(a, k)
  }

  ghost predicate AllSpared(h: seq<Osd>, from: nat, a: Osd, lo: nat, hi: nat) {
    forall i :: from <= i < |h| ==> Spared(a, h[i], lo, hi)
  }

  /** This holds of the current state `s` and of every state in `h` from position `from` on. */
  ghost predicate Bounded(a: Osd, from: nat, s: Osd, h: seq<Osd>, lo: nat, hi: nat) {
    from <= |h| && Spared(a, s, lo, hi) && AllSpared(h, from, a, lo, hi)
  }

  lemma EvolvesSpares(a: Osd, b: Osd, lo: nat, hi: nat)
    requires Evolves(a, b)
    ensures Spared(a, b, lo, hi)
  {
    hide KeepsSafety, KeepsMeta, Blames, Stays;
  }

  lemma SubmitSpares(s: Osd, k: nat, op: Op, lo: nat, hi: nat)
    requires op.Remove? ==> lo <= k < hi
    ensures Spared(s, Submit(s, k, op), lo, hi)
  {
    var t := Submit(s, k, op);
    forall l: nat | !(lo <= l < hi)
      ensures (Stays(s, l) ==> Stays(t, l)) && forall r :: r in Queue(t, l) && r.op.Remove? ==> r in Queue(s, l)
    {
      SubmitQueue(s, k, op, l);
    }
  }

  lemma SparedTransitive(a: Osd, b: Osd, c: Osd, lo: nat, hi: nat, lo': nat, hi': nat)
    requires Spared(a, b, lo, hi) && Spared(b, c, lo', hi') && (lo' < hi' ==> lo <= lo' && hi' <= hi)
    ensures Spared(a, c, lo, hi)
  {
    hide Stays;
  }

  lemma BoundedTransitive(a: Osd, from: nat, b: Osd, h: seq<Osd>, c: Osd, h': seq<Osd>, lo: nat, hi: nat, lo': nat,
    hi': nat)
    requires Bounded(a, from, b, h, lo, hi) && Bounded(b, |h|, c, h', lo', hi') && h <= h'
    requires lo' < hi' ==> lo <= lo' && hi' <= hi
    ensures Bounded(a, from, c, h', lo, hi)
  {
    hide Spared;
    SparedTransitive(a, b, c, lo, hi, lo', hi');
    forall i | from <= i < |h'| ensures Spared(a, h'[i], lo, hi) {
      if i < |h| { assert h'[i] == h[i]; } else { SparedTransitive(a, b, h'[i], lo, hi, lo', hi'); }
    }
  }

  lemma BoundedWider(a: Osd, from: nat, s: Osd, h: seq<Osd>, lo: nat, hi: nat)
    requires Bounded(a, from, s, h, 0, 0)
    ensures Bounded(a, from, s, h, lo, hi)
  {
    hide Stays;
  }

  lemma BoundedNothing(s: Osd, h: seq<Osd>, lo: nat, hi: nat)
    ensures Bounded(s, |h|, s, h, lo, hi)
  {
  }

  lemma BoundedServed(s: Osd, h: seq<Osd>, t: Osd, h': seq<Osd>, lo: nat, hi: nat)
    requires Evolves(s, t) && h <= h' && AllEvolve(h', |h|, s)
    ensures Bounded(s, |h|, t, h', lo, hi)
  {
    hide Evolves, Spared;
    EvolvesSpares(s, t, lo, hi);
    forall i | |h| <= i < |h'| ensures Spared(s, h'[i], lo, hi) { EvolvesSpares(s, h'[i], lo, hi); }
  }

  lemma BoundedSubmit(s: Osd, h: seq<Osd>, k: nat, op: Op, t: Osd, h': seq<Osd>, lo: nat, hi: nat)
    requires op.Remove? ==> lo <= k < hi
    requires Evolves(Submit(s, k, op), t) && h + [Submit(s, k, op)] <= h' && AllEvolve(h', |h| + 1, Submit(s, k, op))
    ensures Bounded(s, |h|, t, h', lo, hi)
  {
    hide Evolves, Spared, Submit;
    var u := Submit(s, k, op);
    SubmitSpares(s, k, op, lo, hi);
    assert Bounded(s, |h|, u, h + [u], lo, hi);
    BoundedServed(u, h + [u], t, h', lo, hi);
    BoundedTransitive(s, |h|, u, h + [u], t, h', lo, hi, lo, hi);
  }

  /** Nothing is left of the objects in [lo, hi), nor will anything come back. */
  ghost predicate Cleared(s: Osd, lo: nat, hi: nat) {
    forall k: nat :: lo <= k < hi ==> !Occupied(s, k)
  }

  /** What a write up to `end` makes of allocation, size and dirty size: one growth step from
      the old size if `end` is beyond the allocation, and a larger size that is to be written
      back if it is beyond the size. */
  predicate Extended(end: nat, alloc: nat, size: nat, dirty: bool, alloc': nat, size': nat, dirty': bool) {
    && alloc' == (if end > alloc then RoundUp(size) + MIN_GROWTH else alloc)
    && size' == (if end > size then end else size)
    && dirty' == (dirty || end > size)
  }

  lemma ExtendedBy(f: File, off: nat, data: seq<byte>, w: nat, alloc: nat)
    requires w <= |data|
    ensures
      var g := Written(f, off, data, w);
      Extended(off + |data|, alloc, f.size, f.dirty, Grown(off + |data|, alloc, f.size), g.size, g.dirty)
  {
    hide FlatWrite, RoundUp;
  }

  /** Where a truncate to `n` bytes leaves the allocation, from `was` for a file of the given
      size.  It first grows by one step from the old size if `n` is beyond it.  Then an empty
      file gives everything up but object 0, more than two growth steps beyond the rounded
      size are cut down to one, and anything less is kept; what is given up is gone. */
  ghost predicate Settled(s: Osd, alloc: nat, n: nat, was: nat, size: nat) {
    var grown := if n > was then RoundUp(size) + MIN_GROWTH else was;
    if n == 0 then alloc == 0 && Cleared(s, 1, grown / OBJECT_SIZE)
    else if grown > RoundUp(n) + 2 * MIN_GROWTH then
      alloc == RoundUp(n) + MIN_GROWTH && Cleared(s, alloc / OBJECT_SIZE, grown / OBJECT_SIZE)
    else alloc == grown
  }

  lemma SettledBy(s: Osd, alloc: nat, n: nat, was: nat, size: nat)
    requires alloc == Shrunk(Grown(n, was, size), n)
    requires alloc != Grown(n, was, size) ==> Cleared(s, FirstPruned(alloc), Grown(n, was, size) / OBJECT_SIZE)
    ensures Settled(s, alloc, n, was, size)
  {
    hide Occupied;
    ShrunkExactly(Grown(n, was, size), n);
  }

  /** From an allocation of `alloc` only what a file of the given size does not need was
      removed. */
  ghost predicate Prunes(a: Osd, from: nat, s: Osd, h: seq<Osd>, alloc: nat, size: nat) {
    Bounded(a, from, s, h, FirstPruned(Shrunk(alloc, size)), alloc / OBJECT_SIZE)
  }

  lemma PrunesNothing(s: Osd, h: seq<Osd>, alloc: nat, size: nat)
    ensures Prunes(s, |h|, s, h, alloc, size)
  {
    hide Bounded;
    BoundedNothing(s, h, FirstPruned(Shrunk(alloc, size)), alloc / OBJECT_SIZE);
  }

  lemma PrunesThen(a: Osd, from: nat, s: Osd, h: seq<Osd>, t: Osd, h': seq<Osd>, alloc: nat, size: nat)
    requires Prunes(a, from, s, h, alloc, size) && Bounded(s, |h|, t, h', 0, 0) && h <= h'
    ensures Prunes(a, from, t, h', alloc, size)
  {
    hide Bounded;
    BoundedTransitive(a, from, s, h, t, h', FirstPruned(Shrunk(alloc, size)), alloc / OBJECT_SIZE, 0, 0);
  }

  /** Something stored for good lies beyond `a`. */
  ghost predicate Beyond(s: Osd, a: nat) {
    exists k: nat :: k != 0 && Stays(s, k) && (k + 1) * OBJECT_SIZE > a
  }

  lemma BeyondDangles(s: Osd, from: nat, c: Client, t: Osd, h: seq<Osd>)
    requires Beyond(s, c.alloc) && Bounded(s, from, t, h, 0, 0) && MetaOk(c, t) && h != [] && h[|h| - 1] == t
    ensures Dangled(h)
  {
    var k: nat :| k != 0 && Stays(s, k) && (k + 1) * OBJECT_SIZE > c.alloc;
    assert Stays(t, k) && Occupied(t, k);
    assert !NoDangling(h[|h| - 1]);
  }

  // ----- what the calls put on the completion queue

  /** `now` is `was`, then `meta` metadata updates, and then the completions of the first
      extents of a write of `len` bytes at `off`, in order, `w` bytes in all. */
  ghost predicate Queued(was: seq<Completion>, now: seq<Completion>, meta: nat, off: nat, len: nat, w: nat)
    requires w <= len
  {
    var n := |now| - |was| - meta;
    && was <= now && 0 <= n <= |ExtentList(off, len)|
    && (forall i :: |was| <= i < |was| + meta ==> now[i].obj == 0)
    && (forall i :: 0 <= i < n ==> now[|was| + meta + i].obj == ExtentList(off, len)[i].obj)
    && ExtentList(off, len)[n..] == ExtentList(off + w, len - w)
  }

  lemma QueuedNone(was: seq<Completion>, off: nat, len: nat)
    ensures Queued(was, was, 0, off, len, 0)
  {
  }

  lemma QueuedNext(was: seq<Completion>, now: seq<Completion>, off: nat, len: nat, w: nat, c: Completion)
    requires w < len && Queued(was, now, 0, off, len, w)
    requires c.obj == NextExtent(off + w, len - w).obj
    ensures Queued(was, now + [c], 0, off, len, w + NextExtent(off + w, len - w).len)
  {
    hide NextExtent, ExtentList;
    var n, es, e := |now| - |was|, ExtentList(off, len), NextExtent(off + w, len - w);
    ExtentListNext(off + w, len - w);
    assert es[n..] == [e] + ExtentList(off + w + e.len, len - w - e.len);
    assert es[n] == es[n..][0] && es[n + 1..] == es[n..][1..];
  }

  lemma QueuedKeeps(was: seq<Completion>, now: seq<Completion>, meta: nat, off: nat, len: nat, w: nat)
    requires w <= len && Queued(was, now, meta, off, len, w)
    ensures was <= now
  {
  }

  lemma QueuedAfter(was: seq<Completion>, mid: seq<Completion>, now: seq<Completion>, meta: nat, off: nat, len: nat,
    w: nat)
    requires w <= len && was <= mid && |mid| == |was| + meta && Queued(mid, now, 0, off, len, w)
    requires forall i :: |was| <= i < |mid| ==> mid[i].obj == 0
    ensures Queued(was, now, meta, off, len, w)
  {
    hide ExtentList;
    forall i | |was| <= i < |was| + meta ensures now[i].obj == 0 { assert now[i] == mid[i]; }
  }

  /** How many metadata updates set_metadata puts on the queue: the one it does not wait
      for, if it does not move the allocation. */
  function MetaQueued(newSize: nat, updateSize: bool, alloc: nat, size: nat): nat {
    if newSize > alloc && Growth(size) != alloc then 0 else if newSize > alloc || updateSize then 1 else 0
  }

  /** `removes[i]` is the outstanding or finished removal of object `first + i`. */
  ghost predicate RemovesOk(s: Osd, removes: seq<Completion>, first: nat) {
    forall i :: 0 <= i < |removes| ==>
      removes[i].obj == first + i && Removing(s, removes[i].obj, removes[i].id) && Tracked(s, removes[i])
  }

  lemma RemovesNone(s: Osd, first: nat)
    ensures RemovesOk(s, [], first)
  {
  }

  lemma RemovesEvolve(a: Osd, b: Osd, removes: seq<Completion>, first: nat)
    requires RemovesOk(a, removes, first) && Evolves(a, b)
    ensures RemovesOk(b, removes, first)
  {
  }

  lemma RemovesSubmit(s: Osd, removes: seq<Completion>, first: nat)
    requires WellFormed(s) && RemovesOk(s, removes, first)
    ensures
      var k := first + |removes|;
      RemovesOk(Submit(s, k, Remove), removes + [Completion(k, s.next)], first)
  {
    hide Removing, Tracked;
    var k := first + |removes|;
    NewRemoving(s, k);
    forall i | 0 <= i < |removes|
      ensures Removing(Submit(s, k, Remove), removes[i].obj, removes[i].id) && Tracked(Submit(s, k, Remove), removes[i])
    {
      TrackedSubmit(s, k, Remove, removes[i]);
      RemovingSubmit(s, k, removes[i]);
    }
  }

  lemma NewRemoving(s: Osd, k: nat)
    requires WellFormed(s)
    ensures Removing(Submit(s, k, Remove), k, s.next) && Tracked(Submit(s, k, Remove), Completion(k, s.next))
  {
    assert s.next !in s.results;
    SubmitWellFormed(s, k, Remove);
  }

  lemma AlignedExtent(k: nat, n: nat)
    requires n > 0
    ensures NextExtent(k * OBJECT_SIZE, n * OBJECT_SIZE) == Extent(k, 0, OBJECT_SIZE)
  {
    Locate(k, 0);
  }

  lemma RemovingSubmit(s: Osd, k: nat, c: Completion)
    requires Removing(s, c.obj, c.id) && c.obj != k
    ensures Removing(Submit(s, k, Remove), c.obj, c.id)
  {
    assert Queue(Submit(s, k, Remove), c.obj) == Queue(s, c.obj);
    if Occupied(Submit(s, k, Remove), c.obj) { OccupiedSubmit(s, k, Remove, c.obj); }
  }

  /** The objects from `first` on, `n` of them, are gone for good. */
  ghost predicate Gone(s: Osd, first: nat, n: nat) {
    forall k: nat :: first <= k < first + n ==> !Occupied(s, k)
  }

  lemma GoneEvolves(a: Osd, b: Osd, removes: seq<Completion>, first: nat, n: nat)
    requires Gone(a, first, n) && Evolves(a, b) && n < |removes| && RemovesOk(b, removes, first)
    requires removes[n].id in b.results && b.results[removes[n].id] in {0, -ENOENT}
    ensures Gone(b, first, n + 1)
  {
    assert Removing(b, first + n, removes[n].id);
  }

  /** The first `n` removals are done and went well. */
  ghost predicate Removed(s: Osd, removes: seq<Completion>, n: nat)
    requires n <= |removes|
  {
    forall i :: 0 <= i < n ==> removes[i].id in s.results && s.results[removes[i].id] in {0, -ENOENT}
  }

  lemma RemovedEvolves(a: Osd, b: Osd, removes: seq<Completion>, n: nat)
    requires n < |removes| && Removed(a, removes, n) && Evolves(a, b)
    requires removes[n].id in b.results && b.results[removes[n].id] in {0, -ENOENT}
    ensures Removed(b, removes, n + 1)
  {
  }

  lemma GoneNothing(s: Osd, first: nat)
    ensures Gone(s, first, 0)
  {
  }

  lemma EvolvesAccounted(a: Osd, b: Osd, cs: seq<Completion>, rs: seq<Completion>)
    requires Accounted(a, cs, rs) && Evolves(a, b)
    ensures Accounted(b, cs, rs)
  {
    hide KeepsRequests, KeepsSafety, KeepsMeta, Blames, Accounted;
    AccountedEvolves(a, b, cs, rs);
  }

  lemma PushAccounted(s: Osd, k: nat, op: Op, t: Osd, cs: seq<Completion>)
    requires Accounted(s, cs, []) && !op.Remove? && Evolves(Submit(s, k, op), t)
    ensures Accounted(t, cs + [Completion(k, s.next)], [])
  {
    hide Evolves, Accounted;
    AccountedSubmit(s, k, op, cs, []);
    EvolvesAccounted(Submit(s, k, op), t, cs + [Completion(k, s.next)], []);
  }

  lemma MoveAccounted(s: Osd, op: Op, t: Osd, u: Osd, cs: seq<Completion>)
    requires Accounted(s, cs, []) && op.SetMeta? && Evolves(Submit(s, 0, op), t) && Evolves(t, u)
    requires WellFormed(u) && s.next in u.results && u.results[s.next] == 0
    ensures Accounted(u, cs, [])
  {
    hide Evolves, Accounted, WellFormed;
    PushAccounted(s, 0, op, t, cs);
    EvolvesAccounted(t, u, cs + [Completion(0, s.next)], []);
    AccountedDone(u, cs, Completion(0, s.next));
  }

  class Striper {
    const pool: Pool
    var size: nat
    var alloc: nat
    var version: nat
    var sizeDirty: bool
    var blocklisted: bool
    var aios: seq<Completion>
    var aiosFailure: int
    ghost var issued: seq<Completion>
    ghost var flat: seq<byte>
    ghost var intact: bool
    ghost var covered: bool
    ghost var trusted: bool  // no call that changes the file has reported an error

    ghost function Client(): Client
      reads this
    {
      StriperState.Client(alloc, version, aios, aiosFailure, issued, covered)
    }

    ghost function File(): File
      reads this
    {
      StriperState.File(size, sizeDirty, flat, intact)
    }

    ghost predicate Sound()
      reads this, pool
    {
      pool.Valid() && Core(Client(), pool.osd, pool.history) && ContentOk(File(), pool.osd)
    }

    /** Whatever has failed so far shows in the result of some request in `issued`. */
    ghost predicate Accounts()
      reads this, pool
    {
      Accounted(pool.osd, issued, [])
    }

    ghost predicate Valid()
      reads this, pool
    {
      Sound() && (trusted ==> Accounts())
    }

    /** Opens the file.  The client has queued nothing yet; requests of a blocklisted earlier
        client may still stand in front of the queues (`pool.leftover`).  Any crash leaves
        such a pool (`CrashOpens`, `OpensAtOnce`).  `bytes` is what the file holds, if that
        is known. */
    constructor (pool: Pool, ghost bytes: Option<seq<byte>>)
      requires pool.Valid() && Idle(pool.osd) && EverRecoverable(pool.history)
      requires bytes.Some? ==> |bytes.value| == pool.osd.meta.size && Represents(pool.osd, bytes.value)
      ensures Valid() && this.pool == pool
      ensures size == pool.osd.meta.size && alloc == pool.osd.meta.alloc && version == pool.osd.meta.version
      ensures intact == bytes.Some? && (intact ==> flat == bytes.value)
      ensures covered <==> EverSafe(pool.history)
      ensures trusted <==> pool.osd.clean
    {
      hide Core, ContentOk, EverSafe, EverRecoverable, Represents;
      this.pool := pool;
      size, alloc, version := pool.osd.meta.size, pool.osd.meta.alloc, pool.osd.meta.version;
      sizeDirty, blocklisted, aios, aiosFailure, issued := false, false, [], 0, [];
      intact, flat := bytes.Some?, if bytes.Some? then bytes.value else [];
      covered, trusted := EverSafe(pool.history), pool.osd.clean;
      FreshCore(pool.osd, pool.history);
      FreshContent(pool.osd, bytes);
      if pool.osd.clean { FreshAccounted(pool.osd); }
    }

    /** The pool moved on without the client: every invariant still holds. */
    lemma Moved(s: Osd, h: seq<Osd>)
      requires Core(Client(), s, h) && ContentOk(File(), s) && pool.OnlyServed(s, h)
      ensures Sound()
      ensures Accounted(s, issued, []) ==> Accounts()
    {
      CoreEvolves(Client(), s, h, pool.osd, pool.history);
      ContentEvolves(File(), s, pool.osd);
      if Accounted(s, issued, []) { AccountedEvolves(s, pool.osd, issued, []); }
    }

    method IssueRemove(k: nat, ghost removes: seq<Completion>) returns (rc: int, c: Completion)
      requires Sound() && size <= k * OBJECT_SIZE
      modifies pool`osd, pool`history, pool`leftover, pool`faults, pool`lastFault
      ensures Sound() && rc <= 0 && old(pool.history) <= pool.history
      ensures pool.faults >= old(pool.faults) && (rc == 0 <==> pool.faults == old(pool.faults))
      ensures rc < 0 ==> rc == pool.lastFault
      ensures rc < 0 ==> Evolves(old(pool.osd), pool.osd)
      ensures rc == 0 ==> c == Completion(k, old(pool.osd).next) && Evolves(Submit(old(pool.osd), k, Remove), pool.osd)
      ensures rc == 0 && old(Accounted(pool.osd, issued, removes)) ==> Accounted(pool.osd, issued, removes + [c])
      ensures Bounded(old(pool.osd), |old(pool.history)|, pool.osd, pool.history, k, k + 1)
    {
      hide Evolves, Core, ContentOk, Accounted, Bounded;
      ghost var s, h := pool.osd, pool.history;
      rc, c := pool.AioOperate(k, Remove);
      if rc < 0 {
        Moved(s, h);
        BoundedServed(s, h, pool.osd, pool.history, k, k + 1);
      } else {
        ghost var t := Submit(s, k, Remove);
        BoundedSubmit(s, h, k, Remove, pool.osd, pool.history, k, k + 1);
        CoreSubmitRemove(Client(), s, h, k);
        ContentRemove(File(), s, k);
        Moved(t, h + [t]);
        if Accounted(s, issued, removes) {
          AccountedSubmit(s, k, Remove, issued, removes);
          EvolvesAccounted(t, pool.osd, issued, removes + [c]);
        }
      }
    }

    method SubmitRemoves(prune: nat) returns (rc: int, removes: seq<Completion>)
      requires Sound() && OBJECT_SIZE <= prune <= alloc && prune % OBJECT_SIZE == 0 && size <= prune
      modifies pool`osd, pool`history, pool`leftover, pool`faults, pool`lastFault
      ensures Sound() && rc <= 0 && old(pool.history) <= pool.history
      ensures pool.faults >= old(pool.faults) && (rc == 0 <==> pool.faults == old(pool.faults))
      ensures rc < 0 ==> rc == pool.lastFault
      ensures rc == 0 ==> RemovesOk(pool.osd, removes, prune / OBJECT_SIZE)
      ensures rc == 0 ==> |removes| == alloc / OBJECT_SIZE - prune / OBJECT_SIZE
      ensures OnlyTouched(old(pool.osd), pool.osd, prune / OBJECT_SIZE, alloc / OBJECT_SIZE)
      ensures rc == 0 && old(Accounts()) ==> Accounted(pool.osd, issued, removes)
      ensures Bounded(old(pool.osd), |old(pool.history)|, pool.osd, pool.history, prune / OBJECT_SIZE,
        alloc / OBJECT_SIZE)
    {
      hide Evolves, Core, ContentOk, RemovesOk, NextExtent, OnlyTouched, Submit, Accounted, Bounded;
      AllocGood(Client(), pool.osd, pool.history);
      ghost var first, last := prune / OBJECT_SIZE, alloc / OBJECT_SIZE;
      rc, removes := 0, [];
      RemovesNone(pool.osd, first);
      TouchedNothing(pool.osd, first, last);
      BoundedNothing(pool.osd, pool.history, first, last);
      var len, offset := alloc - prune, prune;
      while len > 0
        invariant Sound() && rc == 0 && old(pool.history) <= pool.history && pool.faults == old(pool.faults)
        invariant first + |removes| <= last
        invariant offset == (first + |removes|) * OBJECT_SIZE && len == (last - (first + |removes|)) * OBJECT_SIZE
        invariant RemovesOk(pool.osd, removes, first)
        invariant OnlyTouched(old(pool.osd), pool.osd, first, last)
        invariant old(Accounts()) ==> Accounted(pool.osd, issued, removes)
        invariant Bounded(old(pool.osd), |old(pool.history)|, pool.osd, pool.history, first, last)
      {
        AlignedExtent(first + |removes|, last - (first + |removes|));
        var e := NextExtent(offset, len);
        ghost var s, h := pool.osd, pool.history;
        var c;
        rc, c := IssueRemove(e.obj, removes);
        BoundedTransitive(old(pool.osd), |old(pool.history)|, s, h, pool.osd, pool.history, first, last, e.obj,
          e.obj + 1);
        if rc < 0 {
          EvolvesTouched(old(pool.osd), s, pool.osd, first, last);
          return;
        }
        RemovesSubmit(s, removes, first);
        RemovesEvolve(Submit(s, e.obj, Remove), pool.osd, removes + [c], first);
        TouchedMore(old(pool.osd), s, pool.osd, e.obj, first, last);
        removes := removes + [c];
        len := len - e.len;
        offset := offset + e.len;
      }
    }

    method WaitRemoves(removes: seq<Completion>, ghost first: nat) returns (rc: int)
      requires Sound() && RemovesOk(pool.osd, removes, first)
      modifies pool`osd, pool`history, pool`leftover, pool`faults, pool`lastFault
      ensures Sound() && rc <= 0 && old(pool.history) <= pool.history && Evolves(old(pool.osd), pool.osd)
      ensures pool.faults >= old(pool.faults) && (rc == 0 <==> pool.faults == old(pool.faults))
      ensures rc < 0 ==> rc == pool.lastFault
      ensures rc == 0 ==> Gone(pool.osd, first, |removes|)
      ensures rc == 0 && old(Accounted(pool.osd, issued, removes)) ==> Accounts()
      ensures Bounded(old(pool.osd), |old(pool.history)|, pool.osd, pool.history, 0, 0)
    {
      hide Evolves, Accounted, Core, ContentOk, Gone, WellFormed, Bounded;
      EvolvesReflexive(pool.osd);
      BoundedNothing(pool.osd, pool.history, 0, 0);
      GoneNothing(pool.osd, first);
      var i := 0;
      while i < |removes|
        invariant 0 <= i <= |removes|
        invariant Sound() && old(pool.history) <= pool.history && Evolves(old(pool.osd), pool.osd)
        invariant pool.faults == old(pool.faults)
        invariant RemovesOk(pool.osd, removes, first)
        invariant Gone(pool.osd, first, i) && Removed(pool.osd, removes, i)
        invariant Bounded(old(pool.osd), |old(pool.history)|, pool.osd, pool.history, 0, 0)
      {
        ghost var s, h := pool.osd, pool.history;
        rc := pool.WaitForComplete(removes[i], {0, -ENOENT});
        Moved(s, h);
        BoundedServed(s, h, pool.osd, pool.history, 0, 0);
        BoundedTransitive(old(pool.osd), |old(pool.history)|, s, h, pool.osd, pool.history, 0, 0, 0, 0);
        EvolvesTransitive(old(pool.osd), s, pool.osd);
        RemovesEvolve(s, pool.osd, removes, first);
        if rc < 0 && rc != -ENOENT { return; }
        GoneEvolves(s, pool.osd, removes, first, i);
        RemovedEvolves(s, pool.osd, removes, i);
        i := i + 1;
      }
      if old(Accounted(pool.osd, issued, removes)) {
        EvolvesAccounted(old(pool.osd), pool.osd, issued, removes);
        AccountedRemoved(pool.osd, issued, removes);
      }
      rc := 0;
    }

    /** Persists a new allocation, and a new size if there is one, and waits for it.  The
        fields do not follow yet. */
    method SendAlloc(a: nat, sz: Option<nat>) returns (rc: int, sent: bool)
      requires Sound() && GoodAlloc(a) && (covered ==> Below(pool.osd, a))
      modifies pool`osd, pool`history, pool`leftover, pool`faults, pool`lastFault
      ensures pool.Valid() && rc <= 0 && old(pool.history) <= pool.history && (rc == 0 ==> sent)
      ensures pool.faults >= old(pool.faults) && (rc == 0 <==> pool.faults == old(pool.faults))
      ensures rc < 0 ==> rc == pool.lastFault
      ensures rc < 0 ==> Sound()
      ensures rc == 0 ==>
        && Core(Client().(alloc := a, version := version + 1), pool.osd, pool.history)
        && ContentOk(Updated(File(), sz), pool.osd)
      ensures Unoccupied(old(pool.osd), pool.osd) && OnlyTouched(old(pool.osd), pool.osd, 0, 0)
      ensures pool.osd.next == old(pool.osd).next + if sent then 1 else 0
      ensures rc == 0 && old(Accounts()) ==> Accounts()
      ensures Bounded(old(pool.osd), |old(pool.history)|, pool.osd, pool.history, 0, 0)
    {
      hide Evolves, WellFormed, Core, Moving, ContentOk, OnlyTouched, Unoccupied, Submit, Accounted, Bounded;
      ghost var s, h := pool.osd, pool.history;
      var op := SetMeta(Some(a), sz, version + 1);
      var c;
      rc, c := pool.AioOperate(0, op);
      sent := rc == 0;
      if rc < 0 {
        Moved(s, h);
        EvolvesTouches(s, pool.osd);
        BoundedServed(s, h, pool.osd, pool.history, 0, 0);
        return;
      }
      BoundedSubmit(s, h, 0, op, pool.osd, pool.history, 0, 0);
      ghost var t, was, file, upd := Submit(s, 0, op), Client(), File(), Updated(File(), sz);
      SubmitTracked(s, 0, op, pool.osd);
      MovingStarts(was, s, h, op, a);
      MovingEvolves(was, t, h + [t], c.id, a, pool.osd, pool.history);
      ContentUpdate(file, s, op);
      ContentEvolves(upd, t, pool.osd);
      SubmitTouches(s, op);
      EvolvesTouches(t, pool.osd);
      TouchesTransitive(s, t, pool.osd);
      ghost var s1, h1 := pool.osd, pool.history;
      rc := pool.WaitForComplete(c, {0});
      BoundedServed(s1, h1, pool.osd, pool.history, 0, 0);
      BoundedTransitive(s, |h|, s1, h1, pool.osd, pool.history, 0, 0, 0, 0);
      MovingEvolves(was, s1, h1, c.id, a, pool.osd, pool.history);
      EvolvesTouches(s1, pool.osd);
      TouchesTransitive(s, s1, pool.osd);
      MovingEnds(was, pool.osd, pool.history, c.id, a);
      if rc < 0 {
        ContentUnclean(file, s, pool.osd);
        return;
      }
      ContentEvolves(upd, s1, pool.osd);
      if Accounted(s, issued, []) { MoveAccounted(s, op, s1, pool.osd, issued); }
    }

    method MoveAlloc(a: nat, sz: Option<nat>) returns (rc: int, sent: bool)
      requires Sound() && GoodAlloc(a) && (covered ==> Below(pool.osd, a))
      modifies `alloc, `version, `size, `sizeDirty, `flat, `intact
      modifies pool`osd, pool`history, pool`leftover, pool`faults, pool`lastFault
      ensures Sound() && rc <= 0 && old(pool.history) <= pool.history && (rc == 0 ==> sent)
      ensures pool.faults >= old(pool.faults) && (rc == 0 <==> pool.faults == old(pool.faults))
      ensures rc < 0 ==> rc == pool.lastFault
      ensures rc == 0 ==> alloc == a && version == old(version) + 1 && File() == Updated(old(File()), sz)
      ensures rc < 0 ==> alloc == old(alloc) && version == old(version) && File() == old(File())
      ensures Unoccupied(old(pool.osd), pool.osd) && OnlyTouched(old(pool.osd), pool.osd, 0, 0)
      ensures pool.osd.next == old(pool.osd).next + if sent then 1 else 0
      ensures rc == 0 && old(Accounts()) ==> Accounts()
      ensures Bounded(old(pool.osd), |old(pool.history)|, pool.osd, pool.history, 0, 0)
    {
      hide Evolves, WellFormed, Core, ContentOk, OnlyTouched, Unoccupied, Accounted, GoodAlloc, Below, Bounded;
      rc, sent := SendAlloc(a, sz);
      if rc < 0 { return; }
      version := version + 1;
      alloc := a;
      if sz.Some? { SetSize(sz.value); }
    }

    /** Takes over a new size; the ghost content follows. */
    method SetSize(n: nat)
      modifies `size, `sizeDirty, `flat, `intact
      ensures File() == Resized(old(File()), n)
    {
      size, sizeDirty := n, false;
      intact := intact && n <= |flat|;
      flat := if n <= |flat| then flat[..n] else flat;
    }

    /** Submits a metadata update that leaves the allocation as it is.  The fields do not
        follow yet. */
    method SendMeta(keep: Option<nat>, sz: Option<nat>) returns (rc: int, c: Completion)
      requires Sound() && (keep.Some? ==> keep.value == alloc)
      modifies pool`osd, pool`history, pool`leftover, pool`faults, pool`lastFault
      ensures pool.Valid() && rc <= 0 && old(pool.history) <= pool.history
      ensures pool.faults >= old(pool.faults) && (rc == 0 <==> pool.faults == old(pool.faults))
      ensures rc < 0 ==> rc == pool.lastFault
      ensures rc < 0 ==> Sound() && (old(Accounts()) ==> Accounts())
      ensures rc == 0 ==>
        && c == Completion(0, old(pool.osd).next)
        && Core(Pushed(Client(), c).(version := version + 1), pool.osd, pool.history)
        && ContentOk(Updated(File(), sz), pool.osd)
        && (old(Accounts()) ==> Accounted(pool.osd, issued + [c], []))
      ensures pool.osd.next == old(pool.osd).next + if rc == 0 then 1 else 0
      ensures Bounded(old(pool.osd), |old(pool.history)|, pool.osd, pool.history, 0, 0)
    {
      hide Evolves, WellFormed, Core, ContentOk, Submit, AiosOk, Accounted, Bounded;
      ghost var s, h := pool.osd, pool.history;
      var op := SetMeta(keep, sz, version + 1);
      rc, c := pool.AioOperate(0, op);
      if rc < 0 {
        Moved(s, h);
        BoundedServed(s, h, pool.osd, pool.history, 0, 0);
        return;
      }
      BoundedSubmit(s, h, 0, op, pool.osd, pool.history, 0, 0);
      ghost var t, was, upd := Submit(s, 0, op), Client(), Updated(File(), sz);
      CoreSubmitMeta(was, s, h, op);
      ContentUpdate(File(), s, op);
      ContentEvolves(upd, t, pool.osd);
      CoreEvolves(Pushed(was, c).(version := version + 1), t, h + [t], pool.osd, pool.history);
      if Accounted(s, issued, []) { PushAccounted(s, 0, op, pool.osd, issued); }
    }

    /** Queues a metadata update that leaves the allocation as it is. */
    method QueueMeta(keep: Option<nat>, sz: Option<nat>) returns (rc: int)
      requires Sound() && (keep.Some? ==> keep.value == alloc)
      modifies `version, `aios, `issued, `size, `sizeDirty, `flat, `intact
      modifies pool`osd, pool`history, pool`leftover, pool`faults, pool`lastFault
      ensures Sound() && rc <= 0 && old(pool.history) <= pool.history
      ensures pool.faults >= old(pool.faults) && (rc == 0 <==> pool.faults == old(pool.faults))
      ensures rc < 0 ==> rc == pool.lastFault
      ensures rc < 0 ==> File() == old(File()) && Client() == old(Client())
      ensures rc == 0 ==> File() == Updated(old(File()), sz) && version == old(version) + 1
      ensures rc == 0 ==> issued == old(issued) + [Completion(0, old(pool.osd).next)]
      ensures old(Accounts()) ==> Accounts()
      ensures pool.osd.next == old(pool.osd).next + if rc == 0 then 1 else 0
      ensures Bounded(old(pool.osd), |old(pool.history)|, pool.osd, pool.history, 0, 0)
    {
      hide Evolves, WellFormed, Core, ContentOk, Accounted, Bounded;
      var c;
      rc, c := SendMeta(keep, sz);
      if rc < 0 { return; }
      Enqueue(c);
      if sz.Some? { SetSize(sz.value); }
    }

    method Enqueue(c: Completion)
      modifies `version, `aios, `issued
      ensures Client() == Pushed(old(Client()), c).(version := old(version) + 1)
    {
      version := version + 1;
      aios, issued := aios + [c], issued + [c];
    }

    /** Objects go first, the allocation follows: no crash in between leaves an object
        beyond the allocation.  Exactly the objects from `max(a, OBJECT_SIZE)` up to the
        old allocation are removed, so never object 0: no other removal is ever submitted,
        and whatever else was stored for good stays, even if requests fail. */
    method ShrinkAlloc(a: nat) returns (rc: int)
      requires Sound() && a <= alloc && 0 < alloc && GoodAlloc(a) && size <= a
      modifies `alloc, `version, `size, `sizeDirty, `flat, `intact
      modifies pool`osd, pool`history, pool`leftover, pool`faults, pool`lastFault
      ensures Sound() && rc <= 0 && old(pool.history) <= pool.history && File() == old(File())
      ensures pool.faults >= old(pool.faults) && (rc == 0 <==> pool.faults == old(pool.faults))
      ensures rc < 0 ==> rc == pool.lastFault
      ensures rc == 0 ==> alloc == a && version == old(version) + 1
      ensures rc < 0 ==> alloc == old(alloc) && version == old(version)
      ensures rc == 0 && old(Accounts()) ==> Accounts()
      ensures
        var first := FirstPruned(a);
        && OnlyTouched(old(pool.osd), pool.osd, first, old(alloc) / OBJECT_SIZE)
        && Bounded(old(pool.osd), |old(pool.history)|, pool.osd, pool.history, first, old(alloc) / OBJECT_SIZE)
        && (rc == 0 ==> Cleared(pool.osd, first, old(alloc) / OBJECT_SIZE))
    {
      hide Evolves, AllocIs, VersionsUpTo, AiosOk, ContentOk, RemovesOk, EverSafe, Represents, Accounted, Bounded,
        EverRecoverable;
      var prune := if a < OBJECT_SIZE then OBJECT_SIZE else a;
      ghost var first := prune / OBJECT_SIZE;
      var removes;
      rc, removes := SubmitRemoves(prune);
      if rc < 0 { return; }
      ghost var s, h := pool.osd, pool.history;
      rc := WaitRemoves(removes, first);
      BoundedTransitive(old(pool.osd), |old(pool.history)|, s, h, pool.osd, pool.history, first, alloc / OBJECT_SIZE,
        0, 0);
      EvolvesTouched(old(pool.osd), s, pool.osd, first, alloc / OBJECT_SIZE);
      if rc < 0 { return; }
      GoneBelow(pool.osd, alloc, a, first, |removes|);
      ghost var s1, h1 := pool.osd, pool.history;
      var sent;
      rc, sent := MoveAlloc(a, None);
      BoundedTransitive(old(pool.osd), |old(pool.history)|, s1, h1, pool.osd, pool.history, first,
        old(alloc) / OBJECT_SIZE, 0, 0);
    }

    method MaybeShrinkAlloc() returns (rc: int)
      requires Sound()
      modifies `alloc, `version, `size, `sizeDirty, `flat, `intact
      modifies pool`osd, pool`history, pool`leftover, pool`faults, pool`lastFault
      ensures Sound() && rc <= 0 && old(pool.history) <= pool.history && File() == old(File())
      ensures pool.faults >= old(pool.faults) && (rc == 0 <==> pool.faults == old(pool.faults))
      ensures rc < 0 ==> rc == pool.lastFault
      ensures alloc == if rc == 0 then Shrunk(old(alloc), size) else old(alloc)
      ensures rc == 0 && alloc != old(alloc) ==> Cleared(pool.osd, FirstPruned(alloc), old(alloc) / OBJECT_SIZE)
      ensures version == old(version) + if alloc == old(alloc) then 0 else 1
      ensures rc == 0 && old(Accounts()) ==> Accounts()
      ensures Prunes(old(pool.osd), |old(pool.history)|, pool.osd, pool.history, old(alloc), size)
    {
      hide Accounted, Core, ContentOk, Bounded, RoundUp, Evolves, OnlyTouched, FirstPruned, Cleared;
      BoundedNothing(pool.osd, pool.history, FirstPruned(Shrunk(alloc, size)), alloc / OBJECT_SIZE);
      GrowthGood(size);
      if size == 0 {
        if alloc > 0 {
          rc := ShrinkAlloc(0);
        } else {
          rc := 0;
        }
        return;
      }
      var newAlloc := Growth(size);
      if alloc > newAlloc && alloc - newAlloc > MIN_GROWTH {
        rc := ShrinkAlloc(newAlloc);
      } else {
        rc := 0;
      }
    }

    /** Sends the update, and waits for it if it moves the allocation. */
    method SubmitMetadata(newAlloc: nat, set_: Option<nat>, sz: Option<nat>) returns (rc: int)
      requires Sound() && GoodAlloc(newAlloc) && (covered ==> Below(pool.osd, newAlloc))
      requires if newAlloc == alloc then set_ in {None, Some(alloc)} else set_ == Some(newAlloc)
      modifies `alloc, `version, `aios, `issued, `size, `sizeDirty, `flat, `intact
      modifies pool`osd, pool`history, pool`leftover, pool`faults, pool`lastFault
      ensures Sound() && rc <= 0 && old(pool.history) <= pool.history
      ensures pool.faults >= old(pool.faults) && (rc == 0 <==> pool.faults == old(pool.faults))
      ensures rc < 0 ==> rc == pool.lastFault
      ensures rc < 0 ==> alloc == old(alloc) && File() == old(File()) && issued == old(issued)
      ensures rc == 0 ==> alloc == newAlloc && File() == Updated(old(File()), sz)
      ensures rc == 0 ==>
        issued == old(issued) + if newAlloc == old(alloc) then [Completion(0, old(pool.osd).next)] else []
      ensures version == old(version) + (if pool.osd.next == old(pool.osd).next then 0 else 1)
      ensures rc == 0 ==> version == old(version) + 1
      ensures rc == 0 && old(Accounts()) ==> Accounts()
      ensures rc == 0 && Beyond(old(pool.osd), newAlloc) ==> Dangled(pool.history)
      ensures Bounded(old(pool.osd), |old(pool.history)|, pool.osd, pool.history, 0, 0)
    {
      hide Evolves, Core, ContentOk, Unoccupied, OnlyTouched, Accounted, Below, Bounded, GoodAlloc, Beyond, Dangled,
        MetaOk;
      ghost var s, n := pool.osd, |pool.history|;
      if alloc != newAlloc {
        var sent;
        rc, sent := MoveAlloc(newAlloc, sz);
        if rc < 0 && sent {
          CoreVersion(Client(), pool.osd, pool.history);
          version := version + 1;
        }
      } else {
        rc := QueueMeta(set_, sz);
      }
      CoreAlloc(Client(), pool.osd, pool.history);
      if rc == 0 && Beyond(s, newAlloc) { BeyondDangles(s, n, Client(), pool.osd, pool.history); }
    }

    /** Sends the update, and gives back what a new size leaves unused. */
    method CommitMetadata(newAlloc: nat, set_: Option<nat>, sz: Option<nat>) returns (rc: int)
      requires Sound() && GoodAlloc(newAlloc) && (covered ==> Below(pool.osd, newAlloc))
      requires if newAlloc == alloc then set_ in {None, Some(alloc)} else set_ == Some(newAlloc)
      modifies `alloc, `version, `aios, `issued, `size, `sizeDirty, `flat, `intact
      modifies pool`osd, pool`history, pool`leftover, pool`faults, pool`lastFault
      ensures Sound() && rc <= 0 && old(pool.history) <= pool.history
      ensures pool.faults >= old(pool.faults) && (rc == 0 <==> pool.faults == old(pool.faults))
      ensures rc < 0 ==> rc == pool.lastFault
      ensures File() == old(File()) || File() == Updated(old(File()), sz)
      ensures rc == 0 ==> File() == Updated(old(File()), sz)
      ensures rc == 0 ==> alloc == if sz.Some? then Shrunk(newAlloc, sz.value) else newAlloc
      ensures rc == 0 && alloc != newAlloc ==> Cleared(pool.osd, FirstPruned(alloc), newAlloc / OBJECT_SIZE)
      ensures
        var one := [Completion(0, old(pool.osd).next)];
        issued == old(issued) || (newAlloc == old(alloc) && issued == old(issued) + one)
      ensures rc == 0 ==> |issued| == |old(issued)| + if newAlloc == old(alloc) then 1 else 0
      ensures rc == 0 ==> version == old(version) + if alloc == newAlloc then 1 else 2
      ensures rc == 0 && old(Accounts()) ==> Accounts()
      ensures rc == 0 && Beyond(old(pool.osd), newAlloc) ==> Dangled(pool.history)
      ensures Bounded(old(pool.osd), |old(pool.history)|, pool.osd, pool.history,
                      FirstPruned(if sz.Some? then Shrunk(newAlloc, sz.value) else newAlloc), newAlloc / OBJECT_SIZE)
    {
      hide Evolves, Core, ContentOk, Accounted, Below, Bounded, GoodAlloc, Beyond, Dangled, FirstPruned, Shrunk,
        WellFormed, Cleared;
      ghost var lo, hi := FirstPruned(if sz.Some? then Shrunk(newAlloc, sz.value) else newAlloc),
        newAlloc / OBJECT_SIZE;
      rc := SubmitMetadata(newAlloc, set_, sz);
      BoundedWider(old(pool.osd), |old(pool.history)|, pool.osd, pool.history, lo, hi);
      if rc == 0 && sz.Some? {
        ghost var s, h := pool.osd, pool.history;
        rc := MaybeShrinkAlloc();
        BoundedTransitive(old(pool.osd), |old(pool.history)|, s, h, pool.osd, pool.history, lo, hi, lo, hi);
        if Dangled(h) { DangledStays(h, pool.history); }
      }
    }

    /** The allocation after the update: one growth step from the current size, if the new
        size is beyond the allocation.  The file stays covered if nothing lies beyond it. */
    method ChooseAlloc(newSize: nat) returns (newAlloc: nat, set_: Option<nat>)
      requires Sound()
      modifies `covered
      ensures Sound() && GoodAlloc(newAlloc) && (covered ==> Below(pool.osd, newAlloc))
      ensures newAlloc == Grown(newSize, alloc, size)
      ensures set_ == if newSize > alloc then Some(newAlloc) else None
      ensures covered <==> old(covered) && (newSize <= alloc || alloc <= Growth(size) || Below(pool.osd, Growth(size)))
    {
      hide Core, ContentOk, RoundUp, Below, GoodAlloc;
      AllocGood(Client(), pool.osd, pool.history);
      newAlloc, set_ := alloc, None;
      if newSize > alloc {
        newAlloc := Growth(size);
        set_ := Some(newAlloc);
        GrowthGood(size);
        Uncover(Client(), pool.osd, pool.history, newAlloc);
        covered := covered && (alloc <= newAlloc || Below(pool.osd, newAlloc));
      }
    }

    /** Updates the metadata on object 0.  An allocation is persisted before anything is
        written beyond the old one; it covers `newSize` only if `Fits` says so. */
    method SetMetadata(newSize: nat, updateSize: bool) returns (rc: int)
      requires Sound()
      modifies `alloc, `version, `aios, `issued, `covered, `size, `sizeDirty, `flat, `intact
      modifies pool`osd, pool`history, pool`leftover, pool`faults, pool`lastFault
      ensures Sound() && rc <= 0 && old(pool.history) <= pool.history
      ensures pool.faults >= old(pool.faults) && (rc == 0 <==> pool.faults == old(pool.faults))
      ensures rc < 0 ==> rc == pool.lastFault
      ensures covered <==>
        && old(covered)
        && (newSize <= old(alloc) || old(alloc) <= Growth(old(size)) || Below(old(pool.osd), Growth(old(size))))
      ensures old(issued) <= issued && (forall i :: |old(issued)| <= i < |issued| ==> issued[i].obj == 0)
      ensures |issued| <= |old(issued)| + MetaQueued(newSize, updateSize, old(alloc), old(size))
      ensures rc == 0 ==> |issued| == |old(issued)| + MetaQueued(newSize, updateSize, old(alloc), old(size))
      ensures rc == 0 && newSize > old(alloc) && Beyond(old(pool.osd), Growth(old(size))) ==> Dangled(pool.history)
      ensures File() == old(File()) || (updateSize && File() == Resized(old(File()), newSize))
      ensures rc == 0 && updateSize ==> File() == Resized(old(File()), newSize)
      ensures rc == 0 ==>
        var grown := Grown(newSize, old(alloc), old(size));
        && alloc == (if updateSize then Shrunk(grown, newSize) else grown)
        && (alloc != grown ==> Cleared(pool.osd, FirstPruned(alloc), grown / OBJECT_SIZE))
      ensures
        var grown := Grown(newSize, old(alloc), old(size));
        Bounded(old(pool.osd), |old(pool.history)|, pool.osd, pool.history,
                FirstPruned(if updateSize then Shrunk(grown, newSize) else grown), grown / OBJECT_SIZE)
      ensures rc == 0 ==>
        version == old(version) +
          if newSize <= old(alloc) && !updateSize then 0
          else if alloc == Grown(newSize, old(alloc), old(size)) then 1 else 2
      ensures rc == 0 && old(Accounts()) ==> Accounts()
    {
      hide Evolves, Core, ContentOk, Unoccupied, OnlyTouched, RoundUp, Accounted, Below, Beyond, Dangled, GoodAlloc,
        Bounded, FirstPruned, Shrunk, WellFormed;
      BoundedNothing(pool.osd, pool.history, FirstPruned(alloc), alloc / OBJECT_SIZE);
      var newAlloc, set_ := ChooseAlloc(newSize);
      var sz := if updateSize then Some(newSize) else None;
      if set_.Some? || updateSize {
        rc := CommitMetadata(newAlloc, set_, sz);
        return;
      }
      rc := 0;
    }

    /** Sets the size.  Only objects beyond the allocation that it settles on are removed,
        and never object 0.  A growing truncate that moves the allocation below something that is
        stored for good leaves a dangling extent. */
    method Truncate(n: nat) returns (rc: int)
      requires Valid()
      modifies `alloc, `version, `aios, `issued, `covered, `trusted, `size, `sizeDirty, `flat, `intact
      modifies pool`osd, pool`history, pool`leftover, pool`faults, pool`lastFault
      ensures Valid() && rc <= 0 && old(pool.history) <= pool.history
      ensures pool.faults >= old(pool.faults)
      ensures rc == 0 <==> !old(blocklisted) && pool.faults == old(pool.faults)
      ensures rc < 0 ==> rc == if old(blocklisted) then -EBLOCKLISTED else pool.lastFault
      ensures old(blocklisted) ==> pool.history == old(pool.history)
      ensures rc == 0 ==> version == old(version) + if alloc == Grown(n, old(alloc), old(size)) then 1 else 2
      ensures trusted <==> old(trusted) && rc == 0
      ensures File() == old(File()) || File() == Resized(old(File()), n)
      ensures rc == 0 ==> !old(blocklisted) && File() == Resized(old(File()), n)
      ensures rc == 0 ==> size == n && !sizeDirty
      ensures rc == 0 ==> alloc == Shrunk(Grown(n, old(alloc), old(size)), n)
      ensures rc == 0 ==> Settled(pool.osd, alloc, n, old(alloc), old(size))
      ensures Prunes(old(pool.osd), |old(pool.history)|, pool.osd, pool.history, Grown(n, old(alloc), old(size)), n)
      ensures old(blocklisted) ==> covered == old(covered)
      ensures !old(blocklisted) ==> (covered <==>
        old(covered) && (n <= old(alloc) || old(alloc) <= Growth(old(size)) || Below(old(pool.osd), Growth(old(size)))))
      ensures n <= old(size) || n <= old(alloc) ==> covered == old(covered)
      ensures old(issued) <= issued && (forall i :: |old(issued)| <= i < |issued| ==> issued[i].obj == 0)
      ensures rc == 0 ==> |issued| == |old(issued)| + MetaQueued(n, true, old(alloc), old(size))
      ensures rc == 0 && n > old(alloc) && Beyond(old(pool.osd), Growth(old(size))) ==> Dangled(pool.history)
      ensures n <= |old(flat)| ==> intact == old(intact)
      ensures rc == 0 && old(intact) && n <= |old(flat)| ==> flat == old(flat)[..n]
    {
      hide Accounted, Beyond, Dangled, Bounded, Core, ContentOk, RoundUp, Below, MetaQueued, Cleared, Settled;
      hide Shrunk, Grown, FirstPruned;
      BoundedNothing(pool.osd, pool.history, FirstPruned(Shrunk(Grown(n, alloc, size), n)),
        Grown(n, alloc, size) / OBJECT_SIZE);
      if blocklisted {
        trusted := false;
        return -EBLOCKLISTED;
      }
      rc := SetMetadata(n, true);
      if rc == 0 { SettledBy(pool.osd, alloc, n, old(alloc), old(size)); }
      trusted := trusted && rc == 0;
    }

    /** Drains finished completions from the front of the queue; `block` waits for all of
        them.  The first error in submission order sticks until it is reported, and it is
        returned once the queue is empty. */
    method WaitForAios(block: bool) returns (rc: int)
      requires Sound()
      modifies `aios, `aiosFailure
      modifies pool`osd, pool`history, pool`leftover, pool`faults, pool`lastFault
      ensures pool.faults >= old(pool.faults) && (!block ==> pool.faults == old(pool.faults))
      ensures Sound() && old(pool.history) <= pool.history && (old(Accounts()) ==> Accounts())
      ensures |aios| <= |old(aios)| && aios == old(aios)[|old(aios)| - |aios|..]
      ensures old(aiosFailure) != 0 ==> aiosFailure == old(aiosFailure)
      ensures if aios == [] then rc == aiosFailure else !block && rc == 0 && aios[0].id !in pool.osd.results
      ensures Bounded(old(pool.osd), |old(pool.history)|, pool.osd, pool.history, 0, 0)
    {
      hide Evolves, Core, ContentOk, WellFormed, Accounted, Bounded;
      BoundedNothing(pool.osd, pool.history, 0, 0);
      while aios != []
        invariant Sound() && old(pool.history) <= pool.history && (old(Accounts()) ==> Accounts())
        invariant pool.faults >= old(pool.faults) && (!block ==> pool.faults == old(pool.faults))
        invariant |aios| <= |old(aios)| && aios == old(aios)[|old(aios)| - |aios|..]
        invariant old(aiosFailure) != 0 ==> aiosFailure == old(aiosFailure)
        invariant Bounded(old(pool.osd), |old(pool.history)|, pool.osd, pool.history, 0, 0)
        decreases |aios|
      {
        ghost var s, h := pool.osd, pool.history;
        var done;
        done, rc := FrontResult(block);
        BoundedTransitive(old(pool.osd), |old(pool.history)|, s, h, pool.osd, pool.history, 0, 0, 0, 0);
        if !done { return 0; }
        CorePop(Client(), pool.osd, pool.history);
        if rc != 0 {
          if aiosFailure == 0 { aiosFailure := rc; }
        }
        aios := aios[1..];
      }
      rc := aiosFailure;
    }

    /** The result of the oldest completion, if it is there or is waited for. */
    method FrontResult(block: bool) returns (done: bool, rc: int)
      requires Sound() && aios != []
      modifies pool`osd, pool`history, pool`leftover, pool`faults, pool`lastFault
      ensures pool.faults >= old(pool.faults) && (!block ==> pool.faults == old(pool.faults))
      ensures Sound() && old(pool.history) <= pool.history && (block ==> done)
      ensures old(Accounts()) ==> Accounts()
      ensures done <==> aios[0].id in pool.osd.results
      ensures done ==> rc == pool.osd.results[aios[0].id]
      ensures Bounded(old(pool.osd), |old(pool.history)|, pool.osd, pool.history, 0, 0)
    {
      hide Evolves, Core, ContentOk, WellFormed, Accounted, Bounded;
      ghost var s, h := pool.osd, pool.history;
      FrontTracked(Client(), s, h);
      if block {
        rc := pool.WaitForComplete(aios[0], {0});
        done := true;
      } else {
        done := pool.IsComplete(aios[0]);
        rc := if done then pool.osd.results[aios[0].id] else 0;
      }
      Moved(s, h);
      BoundedServed(s, h, pool.osd, pool.history, 0, 0);
    }

    /** Waits for everything that was issued, and reports and forgets the first failure. */
    method ReportAios() returns (rc: int, ghost queued: seq<Completion>)
      requires Sound()
      modifies `aios, `aiosFailure, `issued
      modifies pool`osd, pool`history, pool`leftover, pool`faults, pool`lastFault
      ensures pool.faults >= old(pool.faults)
      ensures Sound() && rc <= 0 && old(pool.history) <= pool.history
      ensures queued == old(issued) && Ordered(queued) && issued == [] && aios == [] && aiosFailure == 0
      ensures forall i :: 0 <= i < |queued| ==> queued[i].id in pool.osd.results
      ensures rc == FirstFailure(queued, pool.osd.results)
      ensures rc == 0 && old(Accounts()) ==> Accounts() && pool.osd.clean
      ensures rc == 0 && old(Accounts()) ==> Idle(pool.osd)
      ensures forall k, r :: r in Queue(pool.osd, k) ==> r.op.Remove?
      ensures Bounded(old(pool.osd), |old(pool.history)|, pool.osd, pool.history, 0, 0)
    {
      hide Evolves, Core, ContentOk, WellFormed, Accounted, FirstFailure, Bounded;
      rc := WaitForAios(true);
      queued := issued;
      CoreReport(Client(), pool.osd, pool.history);
      FailureNotPositive(issued, pool.osd);
      if rc == 0 && Accounts() {
        AccountedClean(pool.osd, issued);
        AccountedIdle(pool.osd);
      }
      issued := [];
      if rc < 0 {
        aiosFailure := 0;
        return;
      }
      rc := 0;
    }

    /** Writes the size back if that is due. */
    method WriteBack() returns (rc: int)
      requires Sound()
      modifies `alloc, `version, `aios, `issued, `covered, `size, `sizeDirty, `flat, `intact
      modifies pool`osd, pool`history, pool`leftover, pool`faults, pool`lastFault
      ensures Sound() && rc <= 0 && old(pool.history) <= pool.history
      ensures pool.faults >= old(pool.faults) && (rc == 0 <==> pool.faults == old(pool.faults))
      ensures rc < 0 ==> rc == pool.lastFault
      ensures size == old(size) && intact == old(intact) && (intact ==> flat == old(flat)) && covered == old(covered)
      ensures rc == 0 ==> !sizeDirty && (old(Accounts()) ==> Accounts())
      ensures old(issued) <= issued
      ensures rc == 0 ==>
        |issued| == |old(issued)| + if old(sizeDirty) then MetaQueued(size, true, old(alloc), size) else 0
      ensures rc == 0 ==> alloc == if old(sizeDirty) then Shrunk(Grown(size, old(alloc), size), size) else old(alloc)
      ensures Prunes(old(pool.osd), |old(pool.history)|, pool.osd, pool.history, Grown(size, old(alloc), size), size)
    {
      hide Evolves, Core, ContentOk, WellFormed, Accounted, Beyond, Dangled, Bounded, Shrunk, FirstPruned, Below,
        MetaQueued;
      PrunesNothing(pool.osd, pool.history, Grown(size, alloc, size), size);
      ResizeSame(File(), pool.osd);
      rc := 0;
      if sizeDirty { rc := SetMetadata(size, true); }
    }

    /** A flush that gets as far as waiting (`waited`) reports the first failure, in
        submission order, among all requests `queued` since the last report, however many
        drains ran in between, and forgets it.  A flush that returns 0 makes the file
        durable, provided that no earlier call has reported an error: a failure in the
        background cannot go unnoticed.  A flush that fails before it waits leaves everything
        queued so far for the next one to answer for. */
    method Flush() returns (rc: int, ghost waited: bool, ghost queued: seq<Completion>)
      requires Valid()
      modifies `alloc, `version, `aios, `aiosFailure, `issued, `covered, `trusted, `size, `sizeDirty, `flat, `intact
      modifies pool`osd, pool`history, pool`leftover, pool`faults, pool`lastFault
      ensures Valid() && rc <= 0 && old(pool.history) <= pool.history
      ensures trusted <==> old(trusted) && rc == 0
      ensures size == old(size) && intact == old(intact) && (intact ==> flat == old(flat))
      ensures covered == old(covered)
      ensures waited ==>
        && old(issued) <= queued && Ordered(queued) && issued == [] && aios == [] && aiosFailure == 0
        && |queued| == |old(issued)|
             + (if old(sizeDirty) then MetaQueued(old(size), true, old(alloc), old(size)) else 0)
        && (forall k, r :: r in Queue(pool.osd, k) ==> r.op.Remove?)
        && (forall i :: 0 <= i < |queued| ==> queued[i].id in pool.osd.results)
        && rc == FirstFailure(queued, pool.osd.results)
      ensures !waited ==> rc < 0 && old(issued) <= issued && aiosFailure == old(aiosFailure)
      ensures !waited ==>
        if old(blocklisted) then rc == -EBLOCKLISTED && pool.history == old(pool.history)
        else rc == pool.lastFault && pool.faults > old(pool.faults)
      ensures pool.faults >= old(pool.faults)
      ensures rc == 0 ==> waited && !sizeDirty && !old(blocklisted)
      ensures rc == 0 ==> alloc == if old(sizeDirty) then Shrunk(Grown(size, old(alloc), size), size) else old(alloc)
      ensures Prunes(old(pool.osd), |old(pool.history)|, pool.osd, pool.history, Grown(size, old(alloc), size), size)
      ensures trusted ==> pool.osd.clean && Idle(pool.osd)
      ensures trusted && intact ==> Durable(pool.osd, flat)
    {
      hide Evolves, Core, ContentOk, Durable, WellFormed, Accounted, FirstFailure, Idle, Ordered, Bounded, Prunes,
        Shrunk, MetaQueued, Grown;
      waited, queued := false, [];
      PrunesNothing(pool.osd, pool.history, Grown(size, alloc, size), size);
      ghost var trust := trusted;
      trusted := false;
      if blocklisted { return -EBLOCKLISTED, waited, queued; }
      rc := WriteBack();
      if rc < 0 { return; }
      ghost var s, h := pool.osd, pool.history;
      rc, queued := ReportAios();
      PrunesThen(old(pool.osd), |old(pool.history)|, s, h, pool.osd, pool.history, Grown(size, old(alloc), size), size);
      waited := true;
      FlushedDurable(File(), pool.osd);
      trusted := trust && rc == 0;
    }

    /** Submits one extent of a write.  The fields do not follow yet. */
    method SendWrite(p: nat, bytes: seq<byte>, ghost g: seq<byte>) returns (rc: int, c: Completion)
      requires pool.Valid() && Core(Client(), pool.osd, pool.history)
      requires p % OBJECT_SIZE + |bytes| <= OBJECT_SIZE && bytes != []
      requires covered ==> p + |bytes| <= alloc
      modifies pool`osd, pool`history, pool`leftover, pool`faults, pool`lastFault
      ensures pool.Valid() && rc <= 0 && old(pool.history) <= pool.history
      ensures pool.faults >= old(pool.faults) && (rc == 0 <==> pool.faults == old(pool.faults))
      ensures rc < 0 ==> rc == pool.lastFault
      ensures rc == 0 ==> c == Completion(p / OBJECT_SIZE, old(pool.osd).next)
      ensures Core(if rc == 0 then Pushed(Client(), c) else Client(), pool.osd, pool.history)
      ensures p <= |g| && old(Halfway(File(), pool.osd, g)) ==>
        Halfway(File(), pool.osd, if rc == 0 then FlatWrite(g, p, bytes) else g)
      ensures rc == 0 && MIN_GROWTH <= alloc < p + |bytes| ==> Dangled(pool.history)
      ensures old(Accounts()) ==> Accounted(pool.osd, if rc == 0 then issued + [c] else issued, [])
    {
      hide Evolves, Core, WellFormed, Halfway, FlatWrite, Submit, NoDangling, Accounted;
      var k, op := p / OBJECT_SIZE, Op.Write(p % OBJECT_SIZE, bytes);
      ghost var s, h, was := pool.osd, pool.history, Client();
      rc, c := pool.AioOperate(k, op);
      if rc < 0 {
        CoreEvolves(was, s, h, pool.osd, pool.history);
        if Halfway(File(), s, g) { HalfwayEvolves(File(), s, pool.osd, g); }
        if Accounted(s, issued, []) { EvolvesAccounted(s, pool.osd, issued, []); }
        return;
      }
      ghost var t := Submit(s, k, op);
      WriteCovered(was, s, h, p, |bytes|);
      CoreSubmitWrite(was, s, h, k, op);
      if Accounted(s, issued, []) { PushAccounted(s, k, op, pool.osd, issued); }
      CoreEvolves(Pushed(was, c), t, h + [t], pool.osd, pool.history);
      if p <= |g| && Halfway(File(), s, g) {
        HalfwayWrite(File(), s, g, p, bytes);
        HalfwayEvolves(File(), t, pool.osd, FlatWrite(g, p, bytes));
      }
      if MIN_GROWTH <= alloc < p + |bytes| { FarWriteShows(was, s, h, p, bytes, pool.history); }
    }

    method IssueWrite(p: nat, bytes: seq<byte>, ghost g: seq<byte>) returns (rc: int)
      requires pool.Valid() && Core(Client(), pool.osd, pool.history)
      requires p % OBJECT_SIZE + |bytes| <= OBJECT_SIZE && bytes != []
      requires covered ==> p + |bytes| <= alloc
      modifies `aios, `issued
      modifies pool`osd, pool`history, pool`leftover, pool`faults, pool`lastFault
      ensures pool.Valid() && Core(Client(), pool.osd, pool.history) && rc <= 0 && old(pool.history) <= pool.history
      ensures pool.faults >= old(pool.faults) && (rc == 0 <==> pool.faults == old(pool.faults))
      ensures rc < 0 ==> rc == pool.lastFault
      ensures p <= |g| && old(Halfway(File(), pool.osd, g)) ==>
        Halfway(File(), pool.osd, if rc == 0 then FlatWrite(g, p, bytes) else g)
      ensures rc == 0 && MIN_GROWTH <= alloc < p + |bytes| ==> Dangled(pool.history)
      ensures issued == old(issued) + if rc == 0 then [Completion(p / OBJECT_SIZE, old(pool.osd).next)] else []
      ensures old(Accounts()) ==> Accounts()
    {
      hide Core, WellFormed, Halfway, FlatWrite, Dangled, Accounted;
      var c;
      rc, c := SendWrite(p, bytes, g);
      if rc == 0 { aios, issued := aios + [c], issued + [c]; }
    }

    /** The first `w` bytes of a write have been submitted: if `good`, the objects hold the
        flat file with these bytes, and their completions follow those in `was`. */
    ghost predicate Writing(data: seq<byte>, off: nat, w: nat, was: seq<Completion>, good: bool)
      requires w <= |data| && (good ==> off <= |flat|)
      reads this, pool
    {
      && pool.Valid() && Core(Client(), pool.osd, pool.history)
      && (good ==> Halfway(File(), pool.osd, FlatWrite(flat, off, data[..w])))
      && Queued(was, issued, 0, off, |data|, w)
      && (w == |data| > 0 && MIN_GROWTH <= alloc < off + |data| ==> Dangled(pool.history))
    }

    /** Submits the next extent of a write. */
    method WriteNext(data: seq<byte>, off: nat, w: nat, ghost was: seq<Completion>,
      ghost good: bool) returns (rc: int, n: nat)
      requires w < |data| && (good ==> off <= |flat|) && Writing(data, off, w, was, good)
      requires covered ==> off + |data| <= alloc
      modifies `aios, `issued
      modifies pool`osd, pool`history, pool`leftover, pool`faults, pool`lastFault
      ensures rc <= 0 && old(pool.history) <= pool.history && 0 < n <= |data| - w
      ensures pool.faults >= old(pool.faults) && (rc == 0 <==> pool.faults == old(pool.faults))
      ensures rc < 0 ==> rc == pool.lastFault
      ensures Writing(data, off, if rc < 0 then w else w + n, was, good)
      ensures old(Accounts()) ==> Accounts()
    {
      hide Evolves, Core, WellFormed, Halfway, Dangled, FlatWrite, NextExtent, Accounted, Queued;
      NextInObject(off + w, |data| - w);
      var e := NextExtent(off + w, |data| - w);
      n := e.len;
      ghost var g := if good then FlatWrite(flat, off, data[..w]) else [];
      if good { FlatWriteNext(flat, off, data, w, n); }
      ghost var before := issued;
      ghost var c := Completion(e.obj, pool.osd.next);
      rc := IssueWrite(off + w, data[w..w + n], g);
      if rc == 0 {
        assert issued == before + [c];
        QueuedNext(was, before, off, |data|, w, c);
      } else {
        assert issued == before;
      }
    }

    /** Submits the extents of a write one after the other, until one is refused. */
    method SubmitWrites(data: seq<byte>, off: nat) returns (w: nat)
      requires pool.Valid() && Core(Client(), pool.osd, pool.history)
      requires covered ==> off + |data| <= alloc
      modifies `aios, `issued
      modifies pool`osd, pool`history, pool`leftover, pool`faults, pool`lastFault
      ensures pool.Valid() && Core(Client(), pool.osd, pool.history) && old(pool.history) <= pool.history
      ensures w <= |data| && pool.faults >= old(pool.faults)
      ensures w == |data| <==> pool.faults == old(pool.faults)
      ensures off <= |flat| && old(Halfway(File(), pool.osd, flat)) ==>
        Halfway(File(), pool.osd, FlatWrite(flat, off, data[..w]))
      ensures w == |data| > 0 && MIN_GROWTH <= alloc < off + |data| ==> Dangled(pool.history)
      ensures Queued(old(issued), issued, 0, off, |data|, w)
      ensures old(Accounts()) ==> Accounts()
    {
      hide Evolves, Core, WellFormed, Halfway, Dangled, FlatWrite, Accounted, Queued;
      ghost var good := off <= |flat| && Halfway(File(), pool.osd, flat);
      if good { FlatWriteNothing(flat, off); }
      QueuedNone(issued, off, |data|);
      w := 0;
      while |data| - w > 0
        invariant w <= |data| && old(pool.history) <= pool.history && pool.faults == old(pool.faults)
        invariant Writing(data, off, w, old(issued), good)
        invariant old(Accounts()) ==> Accounts()
      {
        var rc, n := WriteNext(data, off, w, old(issued), good);
        if rc < 0 { break; }
        w := w + n;
      }
    }

    /** Makes sure, as far as one growth step goes, that the allocation covers the write. */
    method PrepareWrite(end: nat) returns (rc: int)
      requires Sound()
      modifies `alloc, `version, `aios, `issued, `covered, `size, `sizeDirty, `flat, `intact
      modifies pool`osd, pool`history, pool`leftover, pool`faults, pool`lastFault
      ensures Sound() && rc <= 0 && old(pool.history) <= pool.history && File() == old(File())
      ensures pool.faults >= old(pool.faults) && (rc == 0 <==> pool.faults == old(pool.faults))
      ensures rc < 0 ==> rc == pool.lastFault
      ensures rc == 0 && old(Accounts()) ==> Accounts()
      ensures old(issued) <= issued && (forall i :: |old(issued)| <= i < |issued| ==> issued[i].obj == 0)
      ensures rc == 0 ==> |issued| == |old(issued)| + MetaQueued(end, false, old(alloc), old(size))
      ensures covered <==> old(covered) && Fits(end, old(alloc), old(size))
      ensures rc == 0 ==> alloc == Grown(end, old(alloc), old(size))
      ensures rc == 0 && Fits(end, old(alloc), old(size)) ==> end <= alloc
      ensures rc == 0 && !Fits(end, old(alloc), old(size)) ==> MIN_GROWTH <= alloc < end
    {
      hide Evolves, Core, ContentOk, RoundUp, Accounted, Beyond, Dangled, Bounded, Shrunk, FirstPruned;
      Narrow(Client(), pool.osd, pool.history, Fits(end, alloc, size));
      covered := covered && Fits(end, alloc, size);
      rc := 0;
      if alloc < end { rc := SetMetadata(end, false); }
    }

    /** Takes over the size of a write of which the first `w` bytes were submitted. */
    method FinishWrite(off: nat, data: seq<byte>, w: nat)
      requires w <= |data|
      modifies `size, `sizeDirty, `flat, `intact
      ensures File() == Written(old(File()), off, data, w)
    {
      ghost var f := Written(File(), off, data, w);
      flat, intact := f.flat, f.intact;
      if size < |data| + off {
        size := |data| + off;
        sizeDirty := true;
      }
    }

    /** Everything a write does before it cleans up the completion queue. */
    method WriteExtents(data: seq<byte>, off: nat) returns (rc: int)
      requires Sound()
      modifies `alloc, `version, `aios, `issued, `covered, `size, `sizeDirty, `flat, `intact
      modifies pool`osd, pool`history, pool`leftover, pool`faults, pool`lastFault
      ensures Sound() && rc <= |data| && old(pool.history) <= pool.history && pool.faults >= old(pool.faults)
      ensures rc == |data| <==> pool.faults == old(pool.faults)
      ensures rc < 0 ==> rc == pool.lastFault
      ensures rc >= 0 && old(Accounts()) ==> Accounts()
      ensures old(issued) <= issued
      ensures rc >= 0 ==>
        && Extended(off + |data|, old(alloc), old(size), old(sizeDirty), alloc, size, sizeDirty)
        && Queued(old(issued), issued, MetaQueued(off + |data|, false, old(alloc), old(size)), off, |data|, rc)
      ensures covered <==> old(covered) && Fits(off + |data|, old(alloc), old(size))
      ensures rc == |data| && data != [] && !Fits(off + |data|, old(alloc), old(size)) ==> Dangled(pool.history)
      ensures File() == if rc < 0 then old(File()) else Written(old(File()), off, data, rc)
    {
      hide Evolves, Core, ContentOk, Halfway, Dangled, FlatWrite, Fits, Written, Accounted, Queued, MetaQueued,
        WellFormed, Grown, Extended;
      rc := PrepareWrite(off + |data|);
      if rc < 0 { return; }
      ghost var file, mid := File(), issued;
      StartHalfway(file, pool.osd);
      rc := SubmitWrites(data, off);
      QueuedAfter(old(issued), mid, issued, |mid| - |old(issued)|, off, |data|, rc);
      QueuedKeeps(old(issued), issued, |mid| - |old(issued)|, off, |data|, rc);
      EndHalfway(file, pool.osd, off, data, rc);
      ExtendedBy(file, off, data, rc, old(alloc));
      FinishWrite(off, data, rc);
    }

    /** Writes `data` at `off`.  The file stays free of dangling extents in every state from
        here on if the write fits, and a complete write that does not fit leaves a dangling
        extent at once.  What it submits goes to the end of the completion queue, extent by
        extent, behind everything queued before. */
    method Write(data: seq<byte>, off: nat) returns (rc: int)
      requires Valid()
      modifies `alloc, `version, `aios, `aiosFailure, `issued, `covered, `trusted, `size, `sizeDirty, `flat, `intact
      modifies pool`osd, pool`history, pool`leftover, pool`faults, pool`lastFault
      ensures Valid() && rc <= |data| && old(pool.history) <= pool.history && pool.faults >= old(pool.faults)
      ensures old(blocklisted) ==> rc == -EBLOCKLISTED && pool.history == old(pool.history)
      ensures !old(blocklisted) ==> (rc == |data| <==> pool.faults == old(pool.faults))
      ensures !old(blocklisted) && rc < 0 ==> rc == pool.lastFault
      ensures rc >= 0 ==> aios == [] || aios[0].id !in pool.osd.results
      ensures trusted <==> old(trusted) && rc >= 0
      ensures rc >= 0 ==> !old(blocklisted)
      ensures old(issued) <= issued
      ensures rc >= 0 ==>
        && Extended(off + |data|, old(alloc), old(size), old(sizeDirty), alloc, size, sizeDirty)
        && Queued(old(issued), issued, MetaQueued(off + |data|, false, old(alloc), old(size)), off, |data|, rc)
      ensures !old(blocklisted) ==> (covered <==> old(covered) && Fits(off + |data|, old(alloc), old(size)))
      ensures rc == |data| && data != [] && !Fits(off + |data|, old(alloc), old(size)) ==> Dangled(pool.history)
      ensures File() == if rc < 0 then old(File()) else Written(old(File()), off, data, rc)
    {
      hide Evolves, Core, ContentOk, Halfway, Dangled, FlatWrite, Fits, Accounted, Queued, MetaQueued, Written;
      hide Extended;
      ghost var trust := trusted;
      trusted := false;
      if blocklisted { return -EBLOCKLISTED; }
      rc := WriteExtents(data, off);
      if rc < 0 { return; }
      CleanUp();
      trusted := trust;
    }

    /** Drops finished completions. */
    method CleanUp()
      requires Sound()
      modifies `aios, `aiosFailure
      modifies pool`osd, pool`history, pool`leftover, pool`faults, pool`lastFault
      ensures Sound() && old(pool.history) <= pool.history && pool.faults == old(pool.faults)
      ensures (old(Accounts()) ==> Accounts()) && (old(Dangled(pool.history)) ==> Dangled(pool.history))
      ensures aios == [] || aios[0].id !in pool.osd.results
    {
      hide Core, ContentOk, Accounted, Bounded, Dangled;
      ghost var h := pool.history;
      var drained := WaitForAios(false);
      if Dangled(h) { DangledStays(h, pool.history); }
    }

    method SubmitReads(len: nat, off: nat) returns (rc: int, exts: seq<Extent>)
      modifies pool`readFaults, pool`lastFault
      ensures rc <= 0 && pool.readFaults == old(pool.readFaults) + (if rc < 0 then 1 else 0)
      ensures rc < 0 ==> rc == pool.lastFault
      ensures rc == 0 ==> exts == ExtentList(off, len)
    {
      hide ExtentList, NextExtent;
      var r := 0;
      rc, exts := 0, [];
      while len - r > 0
        invariant 0 <= r <= len && rc == 0 && pool.readFaults == old(pool.readFaults)
        invariant exts + ExtentList(off + r, len - r) == ExtentList(off, len)
      {
        var e := NextExtent(off + r, len - r);
        rc := pool.AioRead();
        if rc < 0 { return; }
        ExtentListNext(off + r, len - r);
        exts := exts + [e];
        r := r + e.len;
      }
      ExtentListEnd(off + r);
    }

    /** Reads `len` bytes at `off`: what the objects deliver, which is the flat content as
        long as the file is intact and the range lies inside it.  Without faults it fails
        exactly when one of the objects does not exist. */
    method Read(len: nat, off: nat) returns (rc: int, data: seq<byte>)
      requires Valid()
      modifies pool`osd, pool`history, pool`leftover, pool`readFaults, pool`lastFault
      ensures Valid() && old(pool.history) <= pool.history
      ensures rc >= 0 ==> rc == |data| <= len && data == ReadBytes(pool.osd, off, len)
      ensures intact && pool.osd.clean && off + len <= size
        && (rc >= 0 || (!blocklisted && pool.readFaults == old(pool.readFaults)))
        ==> rc == len && data == flat[off..off + len]
      ensures !blocklisted && pool.readFaults == old(pool.readFaults) ==>
        if AllStored(pool.osd, ExtentList(off, len)) then rc >= 0 else rc == -ENOENT
      ensures blocklisted ==> rc == -EBLOCKLISTED && pool.history == old(pool.history)
      ensures !blocklisted && rc < 0 ==> rc == -ENOENT || rc == pool.lastFault
    {
      hide Evolves, Core, ContentOk, WellFormed, ReadBytes, ListBytes, ExtentList, NextExtent, Accounted;
      data := [];
      if blocklisted { return -EBLOCKLISTED, data; }
      var exts;
      rc, exts := SubmitReads(len, off);
      if rc < 0 { return; }
      ListBytesNone(pool.osd);
      var i := 0;
      while i < |exts|
        invariant 0 <= i <= |exts| && old(pool.history) <= pool.history && pool.readFaults == old(pool.readFaults)
        invariant Valid() && Drained(pool.osd, exts[..i]) && data == ListBytes(pool.osd, exts[..i])
        invariant AllStored(pool.osd, exts[..i])
      {
        ghost var s, h := pool.osd, pool.history;
        var bl;
        rc, bl := pool.Read(exts[i].obj, exts[i].off, exts[i].len);
        Moved(s, h);
        ListServed(s, pool.osd, exts[..i]);
        if rc < 0 {
          if rc == -ENOENT { MissingExtent(File(), pool.osd, off, len, i); }
          return;
        }
        ListSnoc(pool.osd, exts[..i], exts[i]);
        assert exts[..i + 1] == exts[..i] + [exts[i]];
        data := data + bl;
        i := i + 1;
      }
      assert exts[..i] == exts;
      ListIsRead(pool.osd, off, len);
      ReadBytesExact(pool.osd, off, len);
      ReadContent(File(), pool.osd, off, len);
      rc := |data|;
    }

    /** Reads the metadata again.  Without failures the allocation is what it was, and the
        content is cut at the last size that was written back. */
    method Open() returns (rc: int)
      requires Valid()
      modifies `size, `alloc, `version, `flat, `intact
      modifies pool`osd, pool`history, pool`leftover, pool`readFaults, pool`lastFault
      ensures Valid() && rc <= 0 && old(pool.history) <= pool.history
      ensures rc == 0 <==> !old(blocklisted) && pool.readFaults == old(pool.readFaults)
      ensures rc < 0 ==> rc == if old(blocklisted) then -EBLOCKLISTED else pool.lastFault
      ensures rc == 0 ==>
        size == pool.osd.meta.size && alloc == pool.osd.meta.alloc && version == pool.osd.meta.version
      ensures rc < 0 ==> size == old(size) && version == old(version) && File() == old(File())
      ensures alloc == old(alloc) && version <= old(version)
      ensures rc == 0 && old(intact) && pool.osd.clean ==> intact && size <= |old(flat)| && flat == old(flat)[..size]
      ensures rc == 0 && old(intact) && pool.osd.clean && !old(sizeDirty) ==> flat == old(flat)
    {
      hide Evolves, Core, ContentOk, WellFormed, Accounted;
      if blocklisted { return -EBLOCKLISTED; }
      ghost var s, h := pool.osd, pool.history;
      var m;
      rc, m := pool.GetMeta();
      Moved(s, h);
      if rc < 0 { return; }
      Reopened(Client(), File(), pool.osd, pool.history);
      TakeMeta(m, pool.osd.clean);
    }

    /** Takes over the metadata that was read. */
    method TakeMeta(m: Meta, ghost clean: bool)
      modifies `size, `alloc, `version, `flat, `intact
      ensures Client() == old(Client()).(alloc := m.alloc, version := m.version)
      ensures File() == Reread(old(File()), m.size, clean)
    {
      size, alloc, version := m.size, m.alloc, m.version;
      intact := intact && clean;
      flat := if size <= |flat| then flat[..size] else flat;
    }
  }

  lemma FrontTracked(c: Client, s: Osd, h: seq<Osd>)
    requires Core(c, s, h) && c.aios != []
    ensures Tracked(s, c.aios[0])
  {
    hide EverRecoverable, Outstanding, MetaOk, CoverOk, FirstFailure;
    assert c.issued[|c.issued| - |c.aios|] == c.aios[0];
  }

  lemma ResizeSame(f: File, s: Osd)
    requires ContentOk(f, s)
    ensures Resized(f, f.size).size == f.size && Resized(f, f.size).intact == f.intact
    ensures f.intact ==> Resized(f, f.size).flat == f.flat
  {
  }

  /** With nothing but removals queued, an intact file whose size was written back is durable. */
  lemma FlushedDurable(f: File, s: Osd)
    requires ContentOk(f, s) && forall k, r :: r in Queue(s, k) ==> r.op.Remove?
    ensures f.intact && s.clean && !f.dirty ==> Durable(s, f.flat)
  {
    if f.intact && s.clean && !f.dirty { BecomesDurable(s, f.flat); }
  }

  lemma AllocGood(c: Client, s: Osd, h: seq<Osd>)
    requires Core(c, s, h)
    ensures GoodAlloc(c.alloc) && (c.covered ==> Below(s, c.alloc))
  {
    hide EverRecoverable, Outstanding, AiosOk, AllocIs, VersionsUpTo, Below, GoodAlloc, EverSafe;
  }

  lemma CoreAlloc(c: Client, s: Osd, h: seq<Osd>)
    requires Core(c, s, h)
    ensures MetaOk(c, s)
  {
    hide EverRecoverable, Outstanding, AiosOk, MetaOk, CoverOk;
  }

  lemma FarWriteShows(c: Client, s: Osd, h: seq<Osd>, p: nat, bytes: seq<byte>, h': seq<Osd>)
    requires Core(c, s, h) && MIN_GROWTH <= c.alloc < p + |bytes|
    requires bytes != [] && p % OBJECT_SIZE + |bytes| <= OBJECT_SIZE
    requires h + [Submit(s, p / OBJECT_SIZE, Op.Write(p % OBJECT_SIZE, bytes))] <= h'
    ensures Dangled(h')
  {
    hide Core, NoDangling, Submit;
    var op := Op.Write(p % OBJECT_SIZE, bytes);
    CoreAlloc(c, s, h);
    FarWriteDangles(c, s, p + |bytes| - 1, op);
    assert (p + |bytes| - 1) / OBJECT_SIZE == p / OBJECT_SIZE;
    assert h'[|h|] == Submit(s, p / OBJECT_SIZE, op);
  }

  lemma WriteCovered(c: Client, s: Osd, h: seq<Osd>, p: nat, n: nat)
    requires Core(c, s, h) && n > 0 && (c.covered ==> p + n <= c.alloc)
    ensures c.covered ==> (p / OBJECT_SIZE + 1) * OBJECT_SIZE <= c.alloc
  {
    hide EverRecoverable, Outstanding, AiosOk, AllocIs, VersionsUpTo, CoverOk;
  }

  lemma Narrow(c: Client, s: Osd, h: seq<Osd>, b: bool)
    requires Core(c, s, h)
    ensures Core(c.(covered := c.covered && b), s, h)
  {
    hide EverRecoverable, EverSafe, Outstanding, AiosOk, AllocIs, VersionsUpTo, GoodAlloc, Below;
    AiosFrame(c, c.(covered := c.covered && b), s);
  }

  lemma DangledStays(h: seq<Osd>, h': seq<Osd>)
    requires Dangled(h) && h <= h'
    ensures Dangled(h')
  {
    var i :| 0 <= i < |h| && !NoDangling(h[i]);
    assert h'[i] == h[i];
  }

  lemma StartHalfway(f: File, s: Osd)
    requires ContentOk(f, s)
    ensures f.intact ==> |f.flat| == f.size && Halfway(f, s, f.flat)
  {
  }

  lemma FlatWriteNothing(g: seq<byte>, off: nat)
    requires off <= |g|
    ensures FlatWrite(g, off, []) == g
  {
  }

  lemma NextInObject(p: nat, len: nat)
    requires len > 0
    ensures NextExtent(p, len).obj == p / OBJECT_SIZE
    ensures 0 < NextExtent(p, len).len <= len && p % OBJECT_SIZE + NextExtent(p, len).len <= OBJECT_SIZE
  {
  }

  lemma FlatWriteNext(g: seq<byte>, off: nat, data: seq<byte>, w: nat, n: nat)
    requires off <= |g| && w + n <= |data|
    ensures off + w <= |FlatWrite(g, off, data[..w])|
    ensures FlatWrite(FlatWrite(g, off, data[..w]), off + w, data[w..w + n]) == FlatWrite(g, off, data[..w + n])
  {
    assert data[..w + n] == data[..w] + data[w..w + n];
    FlatWriteTwice(g, off, data[..w], data[w..w + n]);
  }

  lemma EndHalfway(f: File, s: Osd, off: nat, data: seq<byte>, w: nat)
    requires w <= |data|
    requires f.intact && off <= f.size ==>
      && off <= |f.flat| && |f.flat| == f.size
      && Halfway(f, s, FlatWrite(f.flat, off, data[..w]))
    ensures ContentOk(Written(f, off, data, w), s)
  {
  }

  lemma ExtentListNext(off: nat, len: nat)
    requires len > 0
    ensures
      var e := NextExtent(off, len);
      0 < e.len <= len && ExtentList(off, len) == [e] + ExtentList(off + e.len, len - e.len)
  {
  }

  lemma ExtentListEnd(off: nat)
    ensures ExtentList(off, 0) == []
  {
  }

  lemma ListBytesNone(s: Osd)
    ensures ListBytes(s, []) == []
  {
  }

  lemma ListServed(a: Osd, b: Osd, es: seq<Extent>)
    requires Drained(a, es) && Evolves(a, b) && AllStored(a, es)
    ensures Drained(b, es) && ListBytes(b, es) == ListBytes(a, es) && AllStored(b, es)
  {
    ListEvolves(a, b, es);
    forall i | 0 <= i < |es| ensures es[i].obj in b.objects {
      assert Queue(a, es[i].obj) == [] && Data(b, es[i].obj) == Data(a, es[i].obj);
    }
  }

  ghost predicate AllStored(s: Osd, es: seq<Extent>) {
    forall i :: 0 <= i < |es| ==> es[i].obj in s.objects
  }

  lemma ReadContent(f: File, s: Osd, off: nat, len: nat)
    requires ContentOk(f, s)
    ensures f.intact && s.clean && off + len <= f.size ==>
      off + len <= |f.flat| && ReadBytes(s, off, len) == f.flat[off..off + len]
  {
    if f.intact && s.clean && off + len <= f.size { ReadRepresents(s, f.flat, off, len); }
  }

  lemma {:induction false} ExtentInRange(off: nat, len: nat, i: nat)
    requires i < |ExtentList(off, len)|
    ensures exists p: nat :: off <= p < off + len && p / OBJECT_SIZE == ExtentList(off, len)[i].obj
    decreases len
  {
    var e := NextExtent(off, len);
    if i == 0 {
      assert off <= off < off + len && off / OBJECT_SIZE == e.obj;
    } else {
      ExtentInRange(off + e.len, len - e.len, i - 1);
    }
  }

  /** An intact file has no missing object in the range that is read. */
  lemma MissingExtent(f: File, s: Osd, off: nat, len: nat, i: nat)
    requires ContentOk(f, s) && i < |ExtentList(off, len)|
    requires Queue(s, ExtentList(off, len)[i].obj) == [] && ExtentList(off, len)[i].obj !in s.objects
    ensures !(f.intact && s.clean && off + len <= f.size)
  {
    ExtentInRange(off, len, i);
    var p: nat :| off <= p < off + len && p / OBJECT_SIZE == ExtentList(off, len)[i].obj;
    assert ByteAt(s, p) == None;
  }

  /** The file after its size was read back as `n`. */
  function Reread(f: File, n: nat, clean: bool): File {
    File(n, f.dirty, if n <= |f.flat| then f.flat[..n] else f.flat, f.intact && clean)
  }

  lemma Reopened(c: Client, f: File, s: Osd, h: seq<Osd>)
    requires Core(c, s, h) && ContentOk(f, s) && Queue(s, 0) == []
    ensures s.meta.alloc == c.alloc && s.meta.version <= c.version
    ensures Core(c.(alloc := s.meta.alloc, version := s.meta.version), s, h)
    ensures f.intact && s.clean ==> s.meta.size <= |f.flat| && (!f.dirty ==> s.meta.size == |f.flat|)
    ensures ContentOk(Reread(f, s.meta.size, s.clean), s)
  {
    hide EverRecoverable, AiosOk, Outstanding, CoverOk, GoodAlloc;
    CoverFrame(c, c.(version := s.meta.version), s, h);
    AiosFrame(c, c.(version := s.meta.version), s);
  }

  lemma FreshCore(s: Osd, h: seq<Osd>)
    requires h != [] && h[|h| - 1] == s && Idle(s) && EverRecoverable(h)
    ensures Core(Client(s.meta.alloc, s.meta.version, [], 0, [], EverSafe(h)), s, h)
  {
    hide VersionsUpTo, Below, GoodAlloc, Recoverable;
    assert Recoverable(h[|h| - 1]);
    IdleVersion(s);
    if EverSafe(h) { assert Safe(h[|h| - 1]); }
  }

  lemma AccountedNone(s: Osd, k: nat, r: Request)
    requires Accounted(s, [], [])
    ensures r !in Queue(s, k)
  {
    if r.op.Remove? { assert Completion(k, r.id) !in []; }
  }

  lemma AccountedIdle(s: Osd)
    requires Accounted(s, [], [])
    ensures Idle(s)
  {
    forall k ensures Queue(s, k) == [] { if Queue(s, k) != [] { AccountedNone(s, k, Queue(s, k)[0]); } }
  }

  lemma FreshAccounted(s: Osd)
    requires s.clean && forall k :: Queue(s, k) == []
    ensures Accounted(s, [], [])
  {
  }

  lemma FreshContent(s: Osd, bytes: Option<seq<byte>>)
    requires forall k :: Queue(s, k) == []
    requires bytes.Some? ==> |bytes.value| == s.meta.size && Represents(s, bytes.value)
    ensures ContentOk(File(s.meta.size, false, if bytes.Some? then bytes.value else [], bytes.Some?), s)
  {
  }

  lemma GrowthGood(size: nat)
    ensures GoodAlloc(Growth(size)) && size <= Growth(size)
  {
  }

  /** Raising the allocation keeps everything covered. */
  lemma Uncover(c: Client, s: Osd, h: seq<Osd>, a: nat)
    requires Core(c, s, h)
    ensures Core(c.(covered := c.covered && (c.alloc <= a || Below(s, a))), s, h)
    ensures c.covered && c.alloc <= a ==> Below(s, a)
  {
    hide EverRecoverable, EverSafe, Outstanding, AiosOk, AllocIs, VersionsUpTo, GoodAlloc;
    AiosFrame(c, c.(covered := c.covered && (c.alloc <= a || Below(s, a))), s);
  }

  /** After the removals everything that is left lies below the new allocation. */
  lemma GoneBelow(s: Osd, alloc: nat, a: nat, first: nat, n: nat)
    requires Gone(s, first, n) && GoodAlloc(a) && GoodAlloc(alloc)
    requires first == (if a < OBJECT_SIZE then OBJECT_SIZE else a) / OBJECT_SIZE
    requires first + n == alloc / OBJECT_SIZE
    ensures Below(s, alloc) ==> Below(s, a)
  {
    if Below(s, alloc) {
      forall k: nat | k != 0 && Occupied(s, k) ensures (k + 1) * OBJECT_SIZE <= a {
        assert (k + 1) * OBJECT_SIZE <= alloc;
        assert !(first <= k < first + n);
      }
    }
  }

  /** No object has come into existence. */
  ghost predicate Unoccupied(a: Osd, b: Osd) {
    forall k :: Occupied(b, k) ==> Occupied(a, k)
  }

  lemma EvolvesTouches(a: Osd, b: Osd)
    requires Evolves(a, b)
    ensures OnlyTouched(a, b, 0, 0) && Unoccupied(a, b)
  {
  }

  lemma TouchesTransitive(a: Osd, b: Osd, c: Osd)
    requires OnlyTouched(a, b, 0, 0) && Unoccupied(a, b) && OnlyTouched(b, c, 0, 0) && Unoccupied(b, c)
    ensures OnlyTouched(a, c, 0, 0) && Unoccupied(a, c)
  {
  }

  lemma SubmitTracked(s: Osd, k: nat, op: Op, b: Osd)
    requires WellFormed(s) && (op.SetMeta? ==> k == 0) && Evolves(Submit(s, k, op), b)
    ensures Tracked(b, Completion(k, s.next))
  {
    SubmitWellFormed(s, k, op);
  }

  /** After a failure nothing is promised about the content. */
  lemma ContentUnclean(c: File, s: Osd, s': Osd)
    requires ContentOk(c, s) && !s'.clean
    ensures ContentOk(c, s')
  {
  }

  lemma SubmitTouches(s: Osd, op: Op)
    requires op.SetMeta?
    ensures OnlyTouched(s, Submit(s, 0, op), 0, 0) && Unoccupied(s, Submit(s, 0, op))
  {
    SubmitView(s, 0, op);
    forall k | Occupied(Submit(s, 0, op), k) ensures Occupied(s, k) { OccupiedSubmit(s, 0, op, k); }
  }

  lemma ContentRemove(c: File, s: Osd, k: nat)
    requires ContentOk(c, s) && c.size <= k * OBJECT_SIZE
    ensures ContentOk(c, Submit(s, k, Remove))
  {
    if c.intact && s.clean { SubmitRemove(s, c.flat, k); SubmitView(s, k, Remove); }
  }
}
