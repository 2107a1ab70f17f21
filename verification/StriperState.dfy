/** The invariants that tie a striper's fields to the pool, stated on values. */
module StriperState {
  import opened Wrappers
  import opened Rados
  import opened OsdRuns
  import opened PoolIO
  import opened Extents

  // ----- allocation sizes

  function RoundUp(n: nat): (r: nat)
    ensures n <= r < n + OBJECT_SIZE && r % OBJECT_SIZE == 0
  {
    (n + (OBJECT_SIZE - 1)) / OBJECT_SIZE * OBJECT_SIZE
  }

  function Growth(size: nat): nat {
    MIN_GROWTH + RoundUp(size)
  }

  /** The allocation after maybe_shrink_alloc() for a file of the given size. */
  function Shrunk(alloc: nat, size: nat): nat {
    if size == 0 then 0
    else if alloc > Growth(size) && alloc - Growth(size) > MIN_GROWTH then Growth(size)
    else alloc
  }

  /** It is 0 for an empty file.  Otherwise more than two growth steps beyond the rounded size
      are cut down to one, and anything less is kept; shrinking again changes nothing. */
  lemma ShrunkExactly(alloc: nat, size: nat)
    ensures Shrunk(alloc, size) ==
      if size == 0 then 0
      else if alloc > RoundUp(size) + 2 * MIN_GROWTH then RoundUp(size) + MIN_GROWTH
      else alloc
    ensures Shrunk(Shrunk(alloc, size), size) == Shrunk(alloc, size)
  {
    hide RoundUp;
  }

  /** The allocation that set_metadata() chooses. */
  function Grown(newSize: nat, alloc: nat, size: nat): nat {
    if newSize > alloc then Growth(size) else alloc
  }

  /** The first object that is removed when the allocation shrinks to `a`: never object 0. */
  function FirstPruned(a: nat): (k: nat)
    ensures k > 0
  {
    (if a < OBJECT_SIZE then OBJECT_SIZE else a) / OBJECT_SIZE
  }

  /** The end of a write is within the current allocation or within the one growth step
      that the code takes from the current size. */
  predicate Fits(end: nat, alloc: nat, size: nat) {
    end <= alloc || end <= Growth(size)
  }

  /** Growing writes of at most `MIN_GROWTH` bytes that start inside the file always fit. */
  lemma SequentialWritesFit(off: nat, len: nat, alloc: nat, size: nat)
    requires off <= size && len <= MIN_GROWTH
    ensures Fits(off + len, alloc, size)
  {
  }

  // ----- the client's view

  /** `issued` is everything queued in `aios` since errors were last reported; `covered`
      says that every allocation so far covered what was stored or about to be stored. */
  datatype Client = Client(
    alloc: nat, version: nat, aios: seq<Completion>, failure: int,
    issued: seq<Completion>, covered: bool)

  /** `flat` is what the file should hold; `intact` says that every write so far was
      complete and left no hole. */
  datatype File = File(size: nat, dirty: bool, flat: seq<byte>, intact: bool)

  /** The first failure in submission order, or 0. */
  function FirstFailure(cs: seq<Completion>, results: map<nat, int>): int {
    if cs == [] then 0
    else if cs[0].id in results && results[cs[0].id] != 0 then results[cs[0].id]
    else FirstFailure(cs[1..], results)
  }

  /** The order of the queue is the order of submission. */
  predicate Ordered(cs: seq<Completion>) {
    forall i, j :: 0 <= i < j < |cs| ==> cs[i].id < cs[j].id
  }

  ghost predicate AiosOk(c: Client, s: Osd) {
    var n := |c.issued| - |c.aios|;
    && 0 <= n && c.aios == c.issued[n..]
    && (forall i :: 0 <= i < |c.issued| ==> Tracked(s, c.issued[i]) && c.issued[i].id < s.next)
    && Ordered(c.issued)
    && (forall i :: 0 <= i < n ==> c.issued[i].id in s.results)
    && c.failure == FirstFailure(c.issued[..n], s.results)
  }

  /** Every queued request other than a removal is one of `cs`. */
  ghost predicate Outstanding(s: Osd, cs: seq<Completion>) {
    forall k, r :: r in Queue(s, k) && !r.op.Remove? ==> Completion(k, r.id) in cs
  }

  ghost predicate MetaOk(c: Client, s: Osd) {
    GoodAlloc(c.alloc) && AllocIs(s, c.alloc) && VersionsUpTo(s, c.version)
  }

  ghost predicate EverSafe(h: seq<Osd>) {
    forall i :: 0 <= i < |h| ==> WellFormed(h[i]) && Safe(h[i])
  }

  /** In every state so far a crash would have left something the next client can open. */
  ghost predicate EverRecoverable(h: seq<Osd>) {
    forall i :: 0 <= i < |h| ==> Recoverable(h[i])
  }

  ghost predicate CoverOk(c: Client, s: Osd, h: seq<Osd>) {
    c.covered ==> Below(s, c.alloc) && EverSafe(h)
  }

  ghost predicate ContentOk(c: File, s: Osd) {
    c.intact ==>
      && |c.flat| == c.size
      && (s.clean ==> Represents(s, c.flat) && SizeOk(c, s))
  }

  ghost predicate SizeOk(c: File, s: Osd) {
    if c.dirty then MetaView(s).size <= c.size else MetaView(s).size == c.size
  }

  ghost predicate Core(c: Client, s: Osd, h: seq<Osd>) {
    AiosOk(c, s) && Outstanding(s, c.aios) && MetaOk(c, s) && CoverOk(c, s, h) && EverRecoverable(h)
  }

  /** The pool right after create(): object 0 with zero size, allocation and version. */
  function Created(): Osd {
    Osd(map[0 := []], Meta(0, 0, 0), map[], map[], 0, true, [0])
  }

  /** A created file can be opened: it is empty, and safe from the start. */
  lemma CreatedIsValid()
    ensures
      var s := Created();
      Idle(s) && EverRecoverable([s]) && Represents(s, []) && EverSafe([s])
  {
    var s := Created();
    assert VersionsUpTo(s, 0);
    assert forall k: nat :: Occupied(s, k) ==> k == 0;
    assert Safe(s);
    assert [s][0] == s;
  }

  // ----- background service keeps the invariants

  lemma {:induction false} FirstFailureStable(cs: seq<Completion>, r: map<nat, int>, r': map<nat, int>)
    requires forall i :: 0 <= i < |cs| ==> cs[i].id in r
    requires forall id :: id in r ==> id in r' && r'[id] == r[id]
    ensures FirstFailure(cs, r) == FirstFailure(cs, r')
  {
    if cs != [] { FirstFailureStable(cs[1..], r, r'); }
  }

  lemma AiosEvolves(c: Client, a: Osd, b: Osd)
    requires AiosOk(c, a) && KeepsRequests(a, b)
    ensures AiosOk(c, b)
  {
    hide Tracked, FirstFailure, WellFormed, View, MetaView, Queue, Data;
    var done := c.issued[..|c.issued| - |c.aios|];
    assert forall i :: 0 <= i < |done| ==> done[i] == c.issued[i];
    FirstFailureStable(done, a.results, b.results);
  }

  lemma OutstandingEvolves(a: Osd, b: Osd, cs: seq<Completion>)
    requires Outstanding(a, cs) && KeepsRequests(a, b)
    ensures Outstanding(b, cs)
  {
  }

  lemma OutstandingSubmit(s: Osd, cs: seq<Completion>, k: nat, op: Op)
    requires Outstanding(s, cs)
    ensures op.Remove? ==> Outstanding(Submit(s, k, op), cs)
    ensures Outstanding(Submit(s, k, op), cs + [Completion(k, s.next)])
  {
    var t := Submit(s, k, op);
    forall l, r | r in Queue(t, l) && !r.op.Remove?
      ensures Completion(l, r.id) in cs || (!op.Remove? && Completion(l, r.id) == Completion(k, s.next))
    {
      assert r in Queue(s, l) || (l == k && r == Request(s.next, op));
    }
  }

  lemma EverSafeEvolves(h: seq<Osd>, s: Osd, h': seq<Osd>)
    requires EverSafe(h) && Safe(s) && h <= h' && AllEvolve(h', |h|, s)
    ensures EverSafe(h')
  {
    forall i | 0 <= i < |h'| ensures WellFormed(h'[i]) && Safe(h'[i]) {
      if i < |h| { assert h'[i] == h[i]; } else { assert Evolves(s, h'[i]); }
    }
  }

  lemma EverSafeSnoc(h: seq<Osd>, t: Osd)
    requires EverSafe(h) && WellFormed(t) && Safe(t)
    ensures EverSafe(h + [t])
  {
    hide Safe, WellFormed;
  }

  lemma RecoverableEvolves(h: seq<Osd>, s: Osd, v: nat, h': seq<Osd>)
    requires EverRecoverable(h) && GoodAllocs(s) && VersionsUpTo(s, v) && h <= h' && AllEvolve(h', |h|, s)
    ensures EverRecoverable(h')
  {
    hide Recoverable, GoodAllocs, VersionsUpTo, Evolves;
    forall i | 0 <= i < |h'| ensures Recoverable(h'[i]) {
      if i < |h| { assert h'[i] == h[i]; } else { EvolvesRecoverable(s, h'[i], v); }
    }
  }

  lemma RecoverableSnoc(h: seq<Osd>, t: Osd, v: nat)
    requires EverRecoverable(h) && WellFormed(t) && GoodAllocs(t) && VersionsUpTo(t, v)
    ensures EverRecoverable(h + [t])
  {
    hide GoodAllocs, VersionsUpTo, WellFormed;
  }

  lemma AllocIsGood(s: Osd, a: nat)
    requires AllocIs(s, a) && GoodAlloc(a)
    ensures GoodAllocs(s)
  {
    forall i | 0 <= i < |Queue(s, 0)| ensures GoodOp(Queue(s, 0)[i].op) { assert KeepsAlloc(Queue(s, 0)[i].op, a); }
  }

  lemma MovesGood(s: Osd, id: nat, a: nat, b: nat, v: nat)
    requires Moves(s, id, a, b, v) && GoodAlloc(a) && GoodAlloc(b)
    ensures GoodAllocs(s)
  {
    hide Ascends, GoodAlloc;
    var q := Queue(s, 0);
    forall i | 0 <= i < |q| ensures GoodOp(q[i].op) { assert i < |q| - 1 ==> KeepsAlloc(q[i].op, a); }
  }

  lemma AllocBelowSafe(s: Osd, a: nat)
    requires AllocIs(s, a) && Below(s, a)
    ensures Safe(s)
  {
    forall i | 0 <= i < |Queue(s, 0)| ensures Covering(s, Queue(s, 0)[i].op) {
      assert KeepsAlloc(Queue(s, 0)[i].op, a);
    }
  }

  lemma CoreEvolves(c: Client, s: Osd, h: seq<Osd>, s': Osd, h': seq<Osd>)
    requires Core(c, s, h) && Evolves(s, s') && h <= h' && AllEvolve(h', |h|, s)
    ensures Core(c, s', h')
  {
    hide AiosOk, Outstanding, Recoverable, GoodAlloc, KeepsRequests, EverRecoverable, AllocIs, VersionsUpTo, Below,
      Safe, AllEvolve;
    AiosEvolves(c, s, s');
    OutstandingEvolves(s, s', c.aios);
    AllocIsGood(s, c.alloc);
    RecoverableEvolves(h, s, c.version, h');
    if c.covered {
      AllocBelowSafe(s, c.alloc);
      EverSafeEvolves(h, s, h');
    }
  }

  lemma ContentEvolves(c: File, s: Osd, s': Osd)
    requires ContentOk(c, s) && Evolves(s, s')
    ensures ContentOk(c, s')
  {
    if c.intact && s'.clean { EvolvesRepresents(s, s', c.flat); }
  }

  // ----- submissions

  lemma AiosSubmit(c: Client, s: Osd, k: nat, op: Op)
    requires AiosOk(c, s)
    ensures AiosOk(c, Submit(s, k, op))
  {
    var t := Submit(s, k, op);
    forall i | 0 <= i < |c.issued| ensures Tracked(t, c.issued[i]) {
      TrackedSubmit(s, k, op, c.issued[i]);
    }
  }

  lemma TrackedSubmit(s: Osd, k: nat, op: Op, d: Completion)
    requires Tracked(s, d)
    ensures Tracked(Submit(s, k, op), d)
  {
    var t := Submit(s, k, op);
    if d.id !in s.results {
      var j :| 0 <= j < |Queue(s, d.obj)| && Queue(s, d.obj)[j].id == d.id;
      assert Queue(t, d.obj)[j] == Queue(s, d.obj)[j];
    }
  }

  lemma AiosIds(c: Client, s: Osd)
    requires AiosOk(c, s)
    ensures forall i :: 0 <= i < |c.issued| ==> c.issued[i].id < s.next
  {
  }

  lemma SubmitNext(s: Osd, k: nat, op: Op)
    ensures Submit(s, k, op).next == s.next + 1
  {
  }

  lemma AiosPush(c: Client, s: Osd, d: Completion)
    requires AiosOk(c, s) && Tracked(s, d) && d.id < s.next && forall i :: 0 <= i < |c.issued| ==> c.issued[i].id < d.id
    ensures AiosOk(c.(aios := c.aios + [d], issued := c.issued + [d]), s)
  {
    var n := |c.issued| - |c.aios|;
    assert (c.issued + [d])[..n] == c.issued[..n];
  }

  lemma BelowSubmit(s: Osd, k: nat, op: Op, a: nat)
    requires Below(s, a) && (op.Write? ==> k == 0 || (k + 1) * OBJECT_SIZE <= a)
    ensures Below(Submit(s, k, op), a)
  {
    forall l: nat | l != 0 && Occupied(Submit(s, k, op), l) ensures (l + 1) * OBJECT_SIZE <= a {
      OccupiedSubmit(s, k, op, l);
    }
  }

  lemma AllocSubmit(s: Osd, k: nat, op: Op, a: nat)
    requires AllocIs(s, a) && (op.SetMeta? ==> KeepsAlloc(op, a))
    ensures AllocIs(Submit(s, k, op), a)
  {
    var t := Submit(s, k, op);
    forall i | 0 <= i < |Queue(t, 0)| ensures KeepsAlloc(Queue(t, 0)[i].op, a) {
      if i < |Queue(s, 0)| { assert Queue(t, 0)[i] == Queue(s, 0)[i]; }
    }
  }

  /** The client's queue after one more request was put on it. */
  function Pushed(c: Client, d: Completion): Client {
    c.(aios := c.aios + [d], issued := c.issued + [d])
  }

  lemma CoverSubmit(c: Client, s: Osd, h: seq<Osd>, k: nat, op: Op)
    requires WellFormed(s) && MetaOk(c, s) && CoverOk(c, s, h)
    requires op.SetMeta? ==> k == 0 && KeepsAlloc(op, c.alloc)
    requires c.covered && op.Write? ==> k == 0 || (k + 1) * OBJECT_SIZE <= c.alloc
    ensures CoverOk(c, Submit(s, k, op), h + [Submit(s, k, op)])
  {
    if c.covered {
      AllocSubmit(s, k, op, c.alloc);
      BelowSubmit(s, k, op, c.alloc);
      AllocBelowSafe(Submit(s, k, op), c.alloc);
      SubmitWellFormed(s, k, op);
    }
  }

  lemma SubmitRecoverable(c: Client, s: Osd, h: seq<Osd>, k: nat, op: Op)
    requires WellFormed(s) && MetaOk(c, s) && EverRecoverable(h)
    requires op.SetMeta? ==> k == 0 && KeepsAlloc(op, c.alloc) && op.version == c.version + 1
    ensures EverRecoverable(h + [Submit(s, k, op)])
  {
    hide WellFormed, AllocIs, VersionsUpTo, Submit, EverRecoverable, GoodAlloc;
    SubmitWellFormed(s, k, op);
    AllocSubmit(s, k, op, c.alloc);
    AllocIsGood(Submit(s, k, op), c.alloc);
    SubmitVersions(s, k, op, c.version);
    RecoverableSnoc(h, Submit(s, k, op), if k == 0 && op.SetMeta? then c.version + 1 else c.version);
  }

  lemma CoreSubmitRemove(c: Client, s: Osd, h: seq<Osd>, k: nat)
    requires WellFormed(s) && Core(c, s, h)
    ensures Core(c, Submit(s, k, Remove), h + [Submit(s, k, Remove)])
  {
    hide AiosOk, CoverOk, Outstanding, AllocIs, VersionsUpTo, EverRecoverable, WellFormed, Submit, GoodAlloc;
    SubmitRecoverable(c, s, h, k, Remove);
    AiosSubmit(c, s, k, Remove);
    OutstandingSubmit(s, c.aios, k, Remove);
    AllocSubmit(s, k, Remove, c.alloc);
    SubmitVersions(s, k, Remove, c.version);
    CoverSubmit(c, s, h, k, Remove);
  }

  lemma CoreSubmitWrite(c: Client, s: Osd, h: seq<Osd>, k: nat, op: Op)
    requires WellFormed(s) && Core(c, s, h) && op.Write?
    requires c.covered ==> k == 0 || (k + 1) * OBJECT_SIZE <= c.alloc
    ensures Core(Pushed(c, Completion(k, s.next)), Submit(s, k, op), h + [Submit(s, k, op)])
  {
    hide AiosOk, CoverOk, Outstanding, AllocIs, VersionsUpTo, EverRecoverable, WellFormed, Submit, GoodAlloc;
    SubmitRecoverable(c, s, h, k, op);
    AiosIds(c, s);
    SubmitNext(s, k, op);
    AiosSubmit(c, s, k, op);
    SubmitWellFormed(s, k, op);
    AiosPush(c, Submit(s, k, op), Completion(k, s.next));
    OutstandingSubmit(s, c.aios, k, op);
    AllocSubmit(s, k, op, c.alloc);
    SubmitVersions(s, k, op, c.version);
    CoverSubmit(c, s, h, k, op);
    CoverFrame(c, Pushed(c, Completion(k, s.next)), Submit(s, k, op), h + [Submit(s, k, op)]);
  }

  lemma CoreSubmitMeta(c: Client, s: Osd, h: seq<Osd>, op: Op)
    requires WellFormed(s) && Core(c, s, h)
    requires op.SetMeta? && KeepsAlloc(op, c.alloc) && op.version == c.version + 1
    ensures Core(Pushed(c, Completion(0, s.next)).(version := c.version + 1), Submit(s, 0, op), h + [Submit(s, 0, op)])
  {
    hide AiosOk, CoverOk, Outstanding, AllocIs, VersionsUpTo, WellFormed, Submit, EverRecoverable, GoodAlloc;
    SubmitRecoverable(c, s, h, 0, op);
    AiosIds(c, s);
    SubmitNext(s, 0, op);
    AiosSubmit(c, s, 0, op);
    SubmitWellFormed(s, 0, op);
    var d := Pushed(c, Completion(0, s.next));
    AiosPush(c, Submit(s, 0, op), Completion(0, s.next));
    AiosFrame(d, d.(version := c.version + 1), Submit(s, 0, op));
    OutstandingSubmit(s, c.aios, 0, op);
    AllocSubmit(s, 0, op, c.alloc);
    SubmitVersions(s, 0, op, c.version);
    CoverSubmit(c, s, h, 0, op);
    CoverFrame(c, Pushed(c, Completion(0, s.next)).(version := c.version + 1), Submit(s, 0, op),
      h + [Submit(s, 0, op)]);
  }

  lemma CoverFrame(c: Client, d: Client, s: Osd, h: seq<Osd>)
    requires CoverOk(c, s, h) && d.covered == c.covered && d.alloc == c.alloc
    ensures CoverOk(d, s, h)
  {
  }

  // ----- a metadata request that changes the allocation

  /** The client waits for request `id`, which moves its allocation to `b`. */
  ghost predicate Moving(c: Client, s: Osd, h: seq<Osd>, id: nat, b: nat) {
    && AiosOk(c, s) && Outstanding(s, c.aios + [Completion(0, id)])
    && GoodAlloc(c.alloc) && GoodAlloc(b)
    && Moves(s, id, c.alloc, b, c.version) && VersionsUpTo(s, c.version + 1)
    && (c.covered ==> Below(s, c.alloc) && Below(s, b) && Safe(s) && EverSafe(h))
    && EverRecoverable(h)
  }

  lemma MovingStarts(c: Client, s: Osd, h: seq<Osd>, op: Op, b: nat)
    requires WellFormed(s) && Core(c, s, h) && GoodAlloc(b) && (c.covered ==> Below(s, b))
    requires op.SetMeta? && op.alloc == Some(b) && op.version == c.version + 1
    ensures Moving(c, Submit(s, 0, op), h + [Submit(s, 0, op)], s.next, b)
  {
    hide AiosOk, Outstanding, Moves, VersionsUpTo, WellFormed, Below, Safe, EverSafe, AllocIs, Submit,
      EverRecoverable, GoodAlloc;
    SubmitWellFormed(s, 0, op);
    AiosSubmit(c, s, 0, op);
    SubmitVersions(s, 0, op, c.version);
    MovesStarts(s, op, c.alloc, b, c.version);
    MovesGood(Submit(s, 0, op), s.next, c.alloc, b, c.version);
    RecoverableSnoc(h, Submit(s, 0, op), c.version + 1);
    OutstandingSubmit(s, c.aios, 0, op);
    if c.covered {
      BelowSubmit(s, 0, op, c.alloc);
      BelowSubmit(s, 0, op, b);
      MovingSafe(s, op, c.alloc, b);
      EverSafeSnoc(h, Submit(s, 0, op));
    }
  }

  lemma MovesStarts(s: Osd, op: Op, a: nat, b: nat, v: nat)
    requires WellFormed(s) && AllocIs(s, a) && VersionsUpTo(s, v)
    requires op.SetMeta? && op.alloc == Some(b) && op.version == v + 1
    ensures Moves(Submit(s, 0, op), s.next, a, b, v)
  {
    var q, r := Queue(s, 0), Queue(Submit(s, 0, op), 0);
    assert s.next !in s.results;
    assert r == q + [Request(s.next, op)] && r[..|r| - 1] == q;
    forall i | 0 <= i < |r| - 1 ensures KeepsAlloc(r[i].op, a) { assert r[i] == q[i]; }
  }

  lemma MovingSafe(s: Osd, op: Op, a: nat, b: nat)
    requires AllocIs(s, a) && op.SetMeta? && op.alloc == Some(b)
    requires Below(Submit(s, 0, op), a) && Below(Submit(s, 0, op), b)
    ensures Safe(Submit(s, 0, op))
  {
    var t := Submit(s, 0, op);
    forall i | 0 <= i < |Queue(t, 0)| ensures Covering(t, Queue(t, 0)[i].op) {
      if i < |Queue(s, 0)| {
        assert Queue(t, 0)[i] == Queue(s, 0)[i];
        assert KeepsAlloc(Queue(s, 0)[i].op, a);
      }
    }
  }

  lemma MovingEvolves(c: Client, s: Osd, h: seq<Osd>, id: nat, b: nat, s': Osd, h': seq<Osd>)
    requires Moving(c, s, h, id, b) && Evolves(s, s') && h <= h' && AllEvolve(h', |h|, s)
    ensures Moving(c, s', h', id, b)
  {
    hide AiosOk, Outstanding, Recoverable, GoodAlloc, KeepsRequests, EverRecoverable, VersionsUpTo, Below, Safe,
      AllEvolve, Moves;
    AiosEvolves(c, s, s');
    OutstandingEvolves(s, s', c.aios + [Completion(0, id)]);
    MovesGood(s, id, c.alloc, b, c.version);
    RecoverableEvolves(h, s, c.version + 1, h');
    if c.covered { EverSafeEvolves(h, s, h'); }
  }

  /** Once the request is done the allocation and the version have both moved, or neither. */
  lemma MovingEnds(c: Client, s: Osd, h: seq<Osd>, id: nat, b: nat)
    requires Moving(c, s, h, id, b) && WellFormed(s) && id in s.results
    ensures s.results[id] == 0 ==> Core(c.(alloc := b, version := c.version + 1), s, h)
    ensures s.results[id] != 0 ==> Core(c, s, h)
    ensures s.results[id] != 0 ==> !s.clean
  {
    hide Below, EverSafe, Safe, AiosOk, EverRecoverable;
    forall k, r | r in Queue(s, k) && !r.op.Remove? ensures Completion(k, r.id) in c.aios {
      assert r.id !in s.results;
    }
    if s.results[id] == 0 { AiosFrame(c, c.(alloc := b, version := c.version + 1), s); }
  }

  lemma AiosFrame(c: Client, d: Client, s: Osd)
    requires AiosOk(c, s) && d.issued == c.issued && d.aios == c.aios && d.failure == c.failure
    ensures AiosOk(d, s)
  {
  }

  // ----- sizes

  /** The client after its size was set to `n`. */
  function Resized(c: File, n: nat): File {
    c.(size := n, dirty := false, intact := c.intact && n <= |c.flat|,
       flat := if n <= |c.flat| then c.flat[..n] else c.flat)
  }

  function Updated(c: File, size: Option<nat>): File {
    if size.Some? then Resized(c, size.value) else c
  }

  lemma ContentUpdate(c: File, s: Osd, op: Op)
    requires ContentOk(c, s) && op.SetMeta?
    ensures ContentOk(Updated(c, op.size), Submit(s, 0, op))
  {
    if c.intact && s.clean { SubmitMeta(s, c.flat, op); SubmitView(s, 0, op); }
  }

  /** The version may be raised at any time. */
  lemma CoreVersion(c: Client, s: Osd, h: seq<Osd>)
    requires Core(c, s, h)
    ensures Core(c.(version := c.version + 1), s, h)
  {
    hide AiosOk, Outstanding, AllocIs, CoverOk, Ascends, EverRecoverable, GoodAlloc;
    var d := c.(version := c.version + 1);
    AiosFrame(c, d, s);
    CoverFrame(c, d, s, h);
    AscendsHigher(Queue(s, 0), s.meta.version, c.version);
  }

  lemma {:induction false} AscendsHigher(q: seq<Request>, lo: nat, top: nat)
    requires Ascends(q, lo, top)
    ensures Ascends(q, lo, top + 1)
    decreases |q|
  {
    if q != [] { AscendsHigher(q[1..], if q[0].op.SetMeta? then q[0].op.version else lo, top); }
  }

  // ----- draining the completion queue

  lemma {:induction false} FirstFailureSnoc(cs: seq<Completion>, d: Completion, r: map<nat, int>)
    requires d.id in r
    ensures FirstFailure(cs + [d], r) == if FirstFailure(cs, r) != 0 then FirstFailure(cs, r) else r[d.id]
  {
    if cs == [] {
      assert cs + [d] == [d] && [d][1..] == [];
    } else {
      assert (cs + [d])[1..] == cs[1..] + [d];
      FirstFailureSnoc(cs[1..], d, r);
    }
  }

  /** The reported error is 0 exactly when every request succeeded, and otherwise it is the
      error of the earliest request that failed. */
  lemma {:induction false} FirstFailureMeaning(cs: seq<Completion>, r: map<nat, int>)
    requires forall i :: 0 <= i < |cs| ==> cs[i].id in r
    ensures FirstFailure(cs, r) == 0 <==> forall i :: 0 <= i < |cs| ==> r[cs[i].id] == 0
    ensures FirstFailure(cs, r) != 0 ==>
      exists i :: 0 <= i < |cs| && r[cs[i].id] == FirstFailure(cs, r) && forall j :: 0 <= j < i ==> r[cs[j].id] == 0
  {
    if cs != [] {
      var rest := cs[1..];
      assert forall i :: 0 <= i < |rest| ==> rest[i] == cs[i + 1];
      FirstFailureMeaning(rest, r);
      if r[cs[0].id] == 0 && FirstFailure(rest, r) != 0 {
        var i :| 0 <= i < |rest| && r[rest[i].id] == FirstFailure(rest, r) && forall j :: 0 <= j < i ==>
          r[rest[j].id] == 0;
        forall j | 0 <= j < i + 1 ensures r[cs[j].id] == 0 { if j > 0 { assert rest[j - 1] == cs[j]; } }
        assert r[cs[i + 1].id] == FirstFailure(cs, r);
      } else if r[cs[0].id] == 0 {
        forall i | 0 <= i < |cs| ensures r[cs[i].id] == 0 { if i > 0 { assert rest[i - 1] == cs[i]; } }
      }
    }
  }

  function Popped(c: Client, rc: int): Client
    requires c.aios != []
  {
    c.(aios := c.aios[1..], failure := if c.failure == 0 then rc else c.failure)
  }

  lemma AiosPop(c: Client, s: Osd)
    requires AiosOk(c, s) && c.aios != [] && c.aios[0].id in s.results
    ensures AiosOk(Popped(c, s.results[c.aios[0].id]), s)
  {
    var n := |c.issued| - |c.aios|;
    assert c.issued[n] == c.aios[0];
    assert c.issued[..n + 1] == c.issued[..n] + [c.aios[0]];
    FirstFailureSnoc(c.issued[..n], c.aios[0], s.results);
  }

  lemma OutstandingPop(s: Osd, cs: seq<Completion>)
    requires WellFormed(s) && Outstanding(s, cs) && cs != [] && cs[0].id in s.results
    ensures Outstanding(s, cs[1..])
  {
    forall k, r | r in Queue(s, k) && !r.op.Remove? ensures Completion(k, r.id) in cs[1..] {
      assert Completion(k, r.id) in cs && r.id !in s.results;
    }
  }

  lemma CorePop(c: Client, s: Osd, h: seq<Osd>)
    requires WellFormed(s) && Core(c, s, h) && c.aios != [] && c.aios[0].id in s.results
    ensures Core(Popped(c, s.results[c.aios[0].id]), s, h)
  {
    hide AiosOk, Outstanding, CoverOk, EverRecoverable, AllocIs, VersionsUpTo, GoodAlloc, WellFormed;
    AiosPop(c, s);
    OutstandingPop(s, c.aios);
    CoverFrame(c, Popped(c, s.results[c.aios[0].id]), s, h);
  }

  /** Nothing is pending, so the errors can be reported and forgotten. */
  lemma CoreReport(c: Client, s: Osd, h: seq<Osd>)
    requires Core(c, s, h) && c.aios == []
    ensures c.failure == FirstFailure(c.issued, s.results)
    ensures forall i :: 0 <= i < |c.issued| ==> c.issued[i].id in s.results
    ensures Ordered(c.issued)
    ensures forall k, r :: r in Queue(s, k) ==> r.op.Remove?
    ensures Core(c.(issued := [], failure := 0), s, h)
  {
    hide AiosOk, Outstanding, AllocIs, VersionsUpTo, GoodAlloc, CoverOk, FirstFailure, EverRecoverable, Ordered;
    AiosReport(c, s);
    OnlyRemoves(s);
    CoverFrame(c, c.(issued := [], failure := 0), s, h);
  }

  lemma AiosReport(c: Client, s: Osd)
    requires AiosOk(c, s) && c.aios == []
    ensures c.failure == FirstFailure(c.issued, s.results)
    ensures forall i :: 0 <= i < |c.issued| ==> c.issued[i].id in s.results
    ensures Ordered(c.issued)
    ensures AiosOk(c.(issued := [], failure := 0), s)
  {
    hide Tracked, FirstFailure;
    assert c.issued[..|c.issued|] == c.issued;
    NoFailures(s.results);
  }

  lemma OnlyRemoves(s: Osd)
    requires Outstanding(s, [])
    ensures forall k, r :: r in Queue(s, k) ==> r.op.Remove?
  {
  }

  lemma NoFailures(r: map<nat, int>)
    ensures FirstFailure([], r) == 0
  {
  }

  lemma {:induction false} FailureNotPositive(cs: seq<Completion>, s: Osd)
    requires WellFormed(s)
    ensures FirstFailure(cs, s.results) <= 0
  {
    if cs != [] { FailureNotPositive(cs[1..], s); }
  }

  // ----- what the results say about failures

  /** Every queued request is a removal in `rs` or else in `cs`, and if anything has failed,
      one of these requests says so. */
  ghost predicate Accounted(s: Osd, cs: seq<Completion>, rs: seq<Completion>) {
    && (forall k, r :: r in Queue(s, k) ==> Completion(k, r.id) in if r.op.Remove? then rs else cs)
    && (s.clean || BadWrite(s, cs) || BadRemove(s, rs))
  }

  ghost predicate BadWrite(s: Osd, cs: seq<Completion>) {
    exists c :: c in cs && c.id in s.results && s.results[c.id] != 0
  }

  ghost predicate BadRemove(s: Osd, rs: seq<Completion>) {
    exists c :: c in rs && c.id in s.results && s.results[c.id] != 0 && s.results[c.id] != -ENOENT
  }

  lemma AccountedEvolves(a: Osd, b: Osd, cs: seq<Completion>, rs: seq<Completion>)
    requires Accounted(a, cs, rs) && KeepsRequests(a, b) && Blames(a, b)
    ensures Accounted(b, cs, rs)
  {
    hide WellFormed, Tracked, View, MetaView, Data;
    if a.clean && !b.clean {
      var k, r :| r in Queue(a, k) && r.id in b.results && Fails(r.op, b.results[r.id]);
      var c := Completion(k, r.id);
      assert c in if r.op.Remove? then rs else cs;
      assert c.id in b.results && b.results[c.id] != 0;
    } else if !a.clean && BadWrite(a, cs) {
      var c :| c in cs && c.id in a.results && a.results[c.id] != 0;
      assert c.id in b.results && b.results[c.id] != 0;
    } else if !a.clean {
      var c :| c in rs && c.id in a.results && a.results[c.id] != 0 && a.results[c.id] != -ENOENT;
      assert c.id in b.results && b.results[c.id] == a.results[c.id];
    }
  }

  lemma AccountedSubmit(s: Osd, k: nat, op: Op, cs: seq<Completion>, rs: seq<Completion>)
    requires Accounted(s, cs, rs)
    ensures op.Remove? ==> Accounted(Submit(s, k, op), cs, rs + [Completion(k, s.next)])
    ensures !op.Remove? ==> Accounted(Submit(s, k, op), cs + [Completion(k, s.next)], rs)
  {
    var t, c := Submit(s, k, op), Completion(k, s.next);
    forall l, r | r in Queue(t, l)
      ensures Completion(l, r.id) in (if r.op.Remove? then rs else cs) || (Completion(l, r.id) == c && r.op == op)
    {
      assert r in Queue(s, l) || (l == k && r == Request(s.next, op));
    }
    if BadWrite(s, cs) {
      var d :| d in cs && d.id in s.results && s.results[d.id] != 0;
      assert d in cs + [c] && d.id in t.results && t.results[d.id] != 0;
    } else if BadRemove(s, rs) {
      var d :| d in rs && d.id in s.results && s.results[d.id] != 0 && s.results[d.id] != -ENOENT;
      assert d in rs + [c] && d.id in t.results && t.results[d.id] == s.results[d.id];
    }
  }

  lemma QueuedUndone(s: Osd)
    requires WellFormed(s)
    ensures forall k, r :: r in Queue(s, k) ==> r.id !in s.results
  {
  }

  /** Removals that all went well need no account any more. */
  lemma AccountedRemoved(s: Osd, cs: seq<Completion>, rs: seq<Completion>)
    requires WellFormed(s) && Accounted(s, cs, rs)
    requires forall i :: 0 <= i < |rs| ==> rs[i].id in s.results && s.results[rs[i].id] in {0, -ENOENT}
    ensures Accounted(s, cs, [])
  {
    QueuedUndone(s);
  }

  /** Nor does an update that was waited for and succeeded. */
  lemma AccountedDone(s: Osd, cs: seq<Completion>, c: Completion)
    requires WellFormed(s) && Accounted(s, cs + [c], []) && c.id in s.results && s.results[c.id] == 0
    ensures Accounted(s, cs, [])
  {
    QueuedUndone(s);
    if !s.clean {
      var d :| d in cs + [c] && d.id in s.results && s.results[d.id] != 0;
      assert d in cs;
    }
  }

  /** When everything that was issued is done and nothing is reported, nothing has failed. */
  lemma AccountedClean(s: Osd, cs: seq<Completion>)
    requires WellFormed(s) && Accounted(s, cs, [])
    requires forall i :: 0 <= i < |cs| ==> cs[i].id in s.results
    requires FirstFailure(cs, s.results) == 0
    ensures s.clean && Accounted(s, [], [])
  {
    FirstFailureMeaning(cs, s.results);
    QueuedUndone(s);
  }

  // ----- a write in progress

  /** The objects hold `g`, while the fields still describe the file `f` before the write. */
  ghost predicate Halfway(f: File, s: Osd, g: seq<byte>) {
    s.clean ==> Represents(s, g) && SizeOk(f, s)
  }

  lemma HalfwayWrite(f: File, s: Osd, g: seq<byte>, p: nat, bytes: seq<byte>)
    requires Halfway(f, s, g) && p <= |g| && p % OBJECT_SIZE + |bytes| <= OBJECT_SIZE
    ensures Halfway(f, Submit(s, p / OBJECT_SIZE, Write(p % OBJECT_SIZE, bytes)), FlatWrite(g, p, bytes))
  {
    hide Represents, Submit, FlatWrite;
    SubmitView(s, p / OBJECT_SIZE, Write(p % OBJECT_SIZE, bytes));
    if s.clean { SubmitWrite(s, g, p, bytes); }
    SubmitClean(s, p / OBJECT_SIZE, Write(p % OBJECT_SIZE, bytes));
  }

  lemma SubmitClean(s: Osd, k: nat, op: Op)
    ensures Submit(s, k, op).clean == s.clean
  {
  }

  lemma HalfwayEvolves(f: File, a: Osd, b: Osd, g: seq<byte>)
    requires Halfway(f, a, g) && Evolves(a, b)
    ensures Halfway(f, b, g)
  {
    if b.clean { EvolvesRepresents(a, b, g); }
  }

  /** The file after the first `w` bytes of a write were submitted.  The size covers the
      whole write even if it was cut short, so the file stays intact only if the write was
      complete or did not grow it, and started inside it. */
  function Written(f: File, off: nat, data: seq<byte>, w: nat): File
    requires w <= |data|
  {
    var grows := f.size < off + |data|;
    var good := f.intact && off <= f.size && (w == |data| || !grows);
    File(if grows then off + |data| else f.size, f.dirty || grows,
         if good && off <= |f.flat| then FlatWrite(f.flat, off, data[..w]) else f.flat, good)
  }

  /** Writing in two steps is writing at once. */
  lemma FlatWriteTwice(g: seq<byte>, off: nat, a: seq<byte>, b: seq<byte>)
    requires off <= |g|
    ensures FlatWrite(FlatWrite(g, off, a), off + |a|, b) == FlatWrite(g, off, a + b)
  {
  }

  /** In a run whose allocation changes all fit, the client may crash in any state the pool
      was ever in: no matter which of the requests in flight are then applied, and in which
      order, no dangling extent appears. */
  lemma NeverDangles(c: Client, s: Osd, h: seq<Osd>, i: nat, run: seq<Served>)
    requires Core(c, s, h) && c.covered && i < |h| && LegalRun(h[i], run)
    ensures NoDangling(RunEnd(h[i], run))
  {
    hide AiosOk, Outstanding, MetaOk, EverRecoverable, LegalRun, RunEnd, NoDangling, Safe;
    CrashSafe(h[i], run);
  }

  // ----- crashes and the next client

  /** A new connection starts with no failures on record. */
  function Reconnected(s: Osd): Osd {
    s.(clean := true)
  }

  /** The pool can be handed to a new client. */
  ghost predicate CanOpen(s: Osd) {
    Idle(s) && EverRecoverable([s])
  }

  lemma ReconnectedOpens(s: Osd)
    requires Recoverable(s) && Idle(s)
    ensures CanOpen(Reconnected(s)) && (Safe(s) ==> EverSafe([Reconnected(s)]))
  {
    var t := Reconnected(s);
    assert forall k :: Queue(t, k) == Queue(s, k);
    var v: nat :| VersionsUpTo(s, v);
    assert VersionsUpTo(t, v);
    assert Recoverable(t);
    if Safe(s) {
      assert forall k: nat :: Occupied(t, k) ==> Occupied(s, k);
      assert Below(t, t.meta.alloc);
      assert Safe(t);
    }
  }

  /** Whenever the client crashes, in any state the pool was ever in and whatever becomes of
      the requests in flight: once they are all gone, the next client can open the file.
      The versions applied by then extend those applied before. */
  lemma CrashOpens(c: Client, s: Osd, h: seq<Osd>, i: nat, run: seq<Served>)
    requires Core(c, s, h) && i < |h| && LegalRun(h[i], run) && Idle(RunEnd(h[i], run))
    ensures CanOpen(Reconnected(RunEnd(h[i], run))) && h[i].applied <= RunEnd(h[i], run).applied
    ensures c.covered ==> EverSafe([Reconnected(RunEnd(h[i], run))])
  {
    hide AiosOk, Outstanding, MetaOk, LegalRun, RunEnd, Recoverable, Idle, Safe;
    CrashRecoverable(h[i], run);
    if c.covered { CrashSafe(h[i], run); }
    ReconnectedOpens(RunEnd(h[i], run));
  }

  /** Fencing makes that happen: when the client is blocklisted at any point of any such run,
      and the OSDs refuse everything it still has queued, in whatever order, this changes
      nothing that is stored, and the next client can open the file. */
  lemma FencedHandover(c: Client, s: Osd, h: seq<Osd>, i: nat, run: seq<Served>, refused: seq<Served>)
    requires Core(c, s, h) && i < |h| && LegalRun(h[i], run)
    requires LegalRun(RunEnd(h[i], run), refused) && Refusals(refused) && Idle(RunEnd(RunEnd(h[i], run), refused))
    ensures SameStore(RunEnd(h[i], run), RunEnd(RunEnd(h[i], run), refused))
    ensures CanOpen(Reconnected(RunEnd(RunEnd(h[i], run), refused)))
    ensures c.covered ==> EverSafe([Reconnected(RunEnd(RunEnd(h[i], run), refused))])
  {
    hide Core, LegalRun, RunEnd, Idle, CanOpen, EverSafe, SameStore, Refusals;
    RefusalsKeepStore(RunEnd(h[i], run), refused);
    RunAppend(h[i], run, refused);
    CrashOpens(c, s, h, i, run + refused);
  }

  /** What was durable when the client crashed is what the next client opens. */
  lemma DurableReopens(s: Osd, flat: seq<byte>, run: seq<Served>)
    requires WellFormed(s) && Durable(s, flat) && LegalRun(s, run)
    ensures
      var t := Reconnected(RunEnd(s, run));
      t.meta.size == |flat| && Represents(t, flat)
  {
    hide WellFormed, LegalRun, RunEnd;
    DurableSurvivesCrash(s, flat, run);
    var e := RunEnd(s, run);
    forall p: nat | p < |flat| ensures ByteAt(Reconnected(e), p) == Some(flat[p]) {
      assert ByteAt(e, p) == Some(flat[p]);
      assert View(Reconnected(e), p / OBJECT_SIZE) == View(e, p / OBJECT_SIZE);
    }
  }

  /** A growing truncate computes the new allocation from the old size, and so may lower it
      below objects that exist. */
  lemma GrowingTruncateDangles()
    ensures
      var a := RoundUp(1) + 2 * MIN_GROWTH;
      var s := Osd(map[0 := [1], 40 := [2]], Meta(1, a, 0), map[], map[], 0, true, [0]);
      && Safe(s)
      && !NoDangling(Serve(Submit(s, 0, SetMeta(Some(Growth(1)), Some(a + 1), 1)), 0, 0))
  {
    var a := RoundUp(1) + 2 * MIN_GROWTH;
    var s := Osd(map[0 := [1], 40 := [2]], Meta(1, a, 0), map[], map[], 0, true, [0]);
    forall k: nat | k != 0 && Occupied(s, k) ensures (k + 1) * OBJECT_SIZE <= a { assert k == 40; }
    var t := Serve(Submit(s, 0, SetMeta(Some(Growth(1)), Some(a + 1), 1)), 0, 0);
    assert RoundUp(1) == OBJECT_SIZE;
    assert Occupied(t, 40) && t.meta.alloc == Growth(1);
  }

  /** A write beyond the allocation is a dangling extent. */
  lemma FarWriteDangles(c: Client, s: Osd, p: nat, op: Op)
    requires MetaOk(c, s) && op.Write? && MIN_GROWTH <= c.alloc <= p
    ensures !NoDangling(Submit(s, p / OBJECT_SIZE, op))
  {
    var k, t := p / OBJECT_SIZE, Submit(s, p / OBJECT_SIZE, op);
    assert Queue(t, k)[|Queue(s, k)|].op.Write?;
    assert Occupied(t, k) && k != 0 && t.meta.alloc == c.alloc;
  }

  ghost predicate Dangled(h: seq<Osd>) {
    exists i :: 0 <= i < |h| && !NoDangling(h[i])
  }
}
