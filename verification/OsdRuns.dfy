/** What survives while the OSDs serve queued requests, whatever they serve and whatever
    they fail.  A client crash is the special case in which nobody submits any more.
 */
module OsdRuns {
  import opened Wrappers
  import opened Rados

  // ----- the state the file will have once every queued request has been applied

  function FoldData(d: Option<seq<byte>>, q: seq<Request>): Option<seq<byte>>
    decreases |q|
  {
    if q == [] then d else FoldData(ApplyData(d, q[0].op), q[1..])
  }

  function FoldMeta(m: Meta, q: seq<Request>): Meta
    decreases |q|
  {
    if q == [] then m else FoldMeta(ApplyMeta(m, q[0].op), q[1..])
  }

  function View(s: Osd, k: nat): Option<seq<byte>> {
    FoldData(Data(s, k), Queue(s, k))
  }

  function MetaView(s: Osd): Meta {
    FoldMeta(s.meta, Queue(s, 0))
  }

  lemma {:induction false} FoldSnoc(d: Option<seq<byte>>, m: Meta, q: seq<Request>, r: Request)
    ensures FoldData(d, q + [r]) == ApplyData(FoldData(d, q), r.op)
    ensures FoldMeta(m, q + [r]) == ApplyMeta(FoldMeta(m, q), r.op)
    decreases |q|
  {
    if q == [] {
      assert q + [r] == [r];
    } else {
      assert (q + [r])[1..] == q[1..] + [r];
      FoldSnoc(ApplyData(d, q[0].op), ApplyMeta(m, q[0].op), q[1..], r);
    }
  }

  /** A submitted request changes the eventual state of its own object only. */
  lemma SubmitView(s: Osd, k: nat, op: Op)
    ensures View(Submit(s, k, op), k) == ApplyData(View(s, k), op)
    ensures forall l :: l != k ==> View(Submit(s, k, op), l) == View(s, l)
    ensures MetaView(Submit(s, k, op)) == if k == 0 then ApplyMeta(MetaView(s), op) else MetaView(s)
  {
    FoldSnoc(Data(s, k), s.meta, Queue(s, k), Request(s.next, op));
  }

  /** Serving a request without a fault leaves the eventual state alone. */
  lemma ServeView(s: Osd, k: nat, l: nat)
    requires WellFormed(s) && CanServe(s, k, 0)
    ensures View(Serve(s, k, 0), l) == View(s, l)
    ensures MetaView(Serve(s, k, 0)) == MetaView(s)
  {
    var t := Serve(s, k, 0);
    assert Queue(t, k) == Queue(s, k)[1..];
    assert Data(t, k) == ApplyData(Data(s, k), Queue(s, k)[0].op);
    assert k != 0 ==> t.meta == s.meta;
  }

  // ----- allocation

  /** Object `k` exists, or a write that would bring it into existence is in flight. */
  ghost predicate Occupied(s: Osd, k: nat) {
    k in s.objects || exists i :: 0 <= i < |Queue(s, k)| && Queue(s, k)[i].op.Write?
  }

  /** No dangling extents: every data object other than object 0, stored or in flight, lies
      within the persisted allocation. */
  ghost predicate NoDangling(s: Osd) {
    forall k: nat :: k != 0 && Occupied(s, k) ==> k < s.meta.alloc / OBJECT_SIZE
  }

  ghost predicate Below(s: Osd, a: nat) {
    forall k: nat :: k != 0 && Occupied(s, k) ==> (k + 1) * OBJECT_SIZE <= a
  }

  /** Every allocation that is persisted, or may become persisted, covers every object. */
  ghost predicate Safe(s: Osd) {
    && Below(s, s.meta.alloc)
    && forall i :: 0 <= i < |Queue(s, 0)| ==> Covering(s, Queue(s, 0)[i].op)
  }

  ghost predicate Covering(s: Osd, op: Op) {
    op.SetMeta? && op.alloc.Some? ==> Below(s, op.alloc.value)
  }

  lemma SafeNoDangling(s: Osd)
    requires Safe(s)
    ensures NoDangling(s)
  {
    forall k: nat | k != 0 && Occupied(s, k) ensures k < s.meta.alloc / OBJECT_SIZE {
      assert (k + 1) * OBJECT_SIZE <= s.meta.alloc;
    }
  }

  lemma ServeOccupied(s: Osd, k: nat, fault: int, l: nat)
    requires CanServe(s, k, fault)
    requires Occupied(Serve(s, k, fault), l)
    ensures Occupied(s, l)
  {
    var t := Serve(s, k, fault);
    if l !in t.objects {
      var i :| 0 <= i < |Queue(t, l)| && Queue(t, l)[i].op.Write?;
      if l == k { assert Queue(s, l)[i + 1].op.Write?; } else { assert Queue(s, l)[i].op.Write?; }
    } else if l !in s.objects {
      assert l == k && Queue(s, l)[0].op.Write?;
    }
  }

  lemma ServeBelow(s: Osd, k: nat, fault: int, a: nat)
    requires CanServe(s, k, fault) && Below(s, a)
    ensures Below(Serve(s, k, fault), a)
  {
    forall l: nat | l != 0 && Occupied(Serve(s, k, fault), l) ensures (l + 1) * OBJECT_SIZE <= a {
      ServeOccupied(s, k, fault, l);
    }
  }

  lemma ServeSafe(s: Osd, k: nat, fault: int)
    requires WellFormed(s) && CanServe(s, k, fault) && Safe(s)
    ensures Safe(Serve(s, k, fault))
  {
    var t := Serve(s, k, fault);
    var head := Queue(s, k)[0].op;
    assert Covering(s, head);
    assert Below(s, t.meta.alloc);
    ServeBelow(s, k, fault, t.meta.alloc);
    forall i | 0 <= i < |Queue(t, 0)| ensures Covering(t, Queue(t, 0)[i].op) {
      var op := Queue(t, 0)[i].op;
      assert op == if k == 0 then Queue(s, 0)[i + 1].op else Queue(s, 0)[i].op;
      assert Covering(s, op);
      if op.SetMeta? && op.alloc.Some? { ServeBelow(s, k, fault, op.alloc.value); }
    }
  }

  // ----- crashes

  datatype Served = Served(obj: nat, fault: int)

  ghost predicate LegalRun(s: Osd, run: seq<Served>)
    decreases |run|
  {
    run == [] || (CanServe(s, run[0].obj, run[0].fault)
                  && LegalRun(Serve(s, run[0].obj, run[0].fault), run[1..]))
  }

  ghost function RunEnd(s: Osd, run: seq<Served>): Osd
    requires LegalRun(s, run)
    decreases |run|
  {
    if run == [] then s else RunEnd(Serve(s, run[0].obj, run[0].fault), run[1..])
  }

  /** Once a state is safe, no serving order and no pattern of failures - and therefore no
      crash of the client, which only stops further submissions - leaves a dangling extent. */
  lemma {:induction false} CrashSafe(s: Osd, run: seq<Served>)
    requires WellFormed(s) && Safe(s) && LegalRun(s, run)
    ensures WellFormed(RunEnd(s, run)) && Safe(RunEnd(s, run)) && NoDangling(RunEnd(s, run))
    decreases |run|
  {
    if run == [] {
      SafeNoDangling(s);
    } else {
      ServeSafe(s, run[0].obj, run[0].fault);
      ServeKeepsWellFormed(s, run[0].obj, run[0].fault);
      CrashSafe(Serve(s, run[0].obj, run[0].fault), run[1..]);
    }
  }

  /** The OSDs serve `n` requests on object 0 and nothing else. */
  function Drains(n: nat): seq<Served> {
    if n == 0 then [] else [Served(0, 0)] + Drains(n - 1)
  }

  lemma {:induction false} DrainMeta(s: Osd, n: nat, k: nat)
    requires WellFormed(s) && n == |Queue(s, 0)| && k != 0 && Occupied(s, k)
    ensures LegalRun(s, Drains(n))
    ensures RunEnd(s, Drains(n)).meta == MetaView(s) && Occupied(RunEnd(s, Drains(n)), k)
    decreases n
  {
    hide WellFormed, WriteAt;
    if n > 0 {
      var t := Serve(s, 0, 0);
      ServeKeepsWellFormed(s, 0, 0);
      ServeView(s, 0, 0);
      ServeQueue(s, 0, 0, 0);
      assert Queue(t, k) == Queue(s, k);
      assert Drains(n)[1..] == Drains(n - 1);
      DrainMeta(t, n - 1, k);
    }
  }

  /** Moving the allocation of a safe file to `b` is safe, whatever the OSDs do next,
      exactly when no object lies beyond `b`. */
  lemma MoveSafeExactly(s: Osd, op: Op, b: nat)
    requires WellFormed(s) && Safe(s) && op.SetMeta? && op.alloc == Some(b)
    ensures
      var t := Submit(s, 0, op);
      Below(s, b) <==> forall run :: LegalRun(t, run) ==> NoDangling(RunEnd(t, run))
  {
    hide WellFormed, Safe, Submit, LegalRun, RunEnd, Occupied, View;
    var t := Submit(s, 0, op);
    SubmitWellFormed(s, 0, op);
    if Below(s, b) {
      MoveSafe(s, op, b);
      forall run | LegalRun(t, run) ensures NoDangling(RunEnd(t, run)) { CrashSafe(t, run); }
    } else {
      var k: nat :| k != 0 && Occupied(s, k) && (k + 1) * OBJECT_SIZE > b;
      OccupiedStays(s, 0, op, k);
      var run := Drains(|Queue(t, 0)|);
      DrainMeta(t, |Queue(t, 0)|, k);
      SubmitView(s, 0, op);
      assert LegalRun(t, run) && !NoDangling(RunEnd(t, run));
    }
  }

  lemma SubmitQueue(s: Osd, k: nat, op: Op, l: nat)
    ensures Queue(Submit(s, k, op), l) == if l == k then Queue(s, k) + [Request(s.next, op)] else Queue(s, l)
  {
  }

  /** Only a write can bring an object into existence. */
  lemma OccupiedSubmit(s: Osd, k: nat, op: Op, l: nat)
    requires Occupied(Submit(s, k, op), l)
    ensures Occupied(s, l) || (l == k && op.Write?)
  {
    SubmitQueue(s, k, op, l);
    var t := Submit(s, k, op);
    if l !in s.objects {
      var i :| 0 <= i < |Queue(t, l)| && Queue(t, l)[i].op.Write?;
      if i < |Queue(s, l)| { assert Queue(s, l)[i].op.Write?; }
    }
  }

  lemma OccupiedStays(s: Osd, k: nat, op: Op, l: nat)
    requires Occupied(s, l)
    ensures Occupied(Submit(s, k, op), l)
  {
    SubmitQueue(s, k, op, l);
    if l !in s.objects {
      var i :| 0 <= i < |Queue(s, l)| && Queue(s, l)[i].op.Write?;
      assert Queue(Submit(s, k, op), l)[i].op.Write?;
    }
  }

  lemma SubmitDistinct(s: Osd, k: nat, op: Op)
    requires WellFormed(s)
    ensures DistinctIds(Submit(s, k, op))
  {
    hide Submit;
    var t := Submit(s, k, op);
    forall l, i, m, j | 0 <= i < |Queue(t, l)| && 0 <= j < |Queue(t, m)| && Queue(t, l)[i].id == Queue(t, m)[j].id
      ensures l == m && i == j
    {
      SubmitQueue(s, k, op, l);
      SubmitQueue(s, k, op, m);
      if i < |Queue(s, l)| { assert Queue(t, l)[i] == Queue(s, l)[i]; }
      if j < |Queue(s, m)| { assert Queue(t, m)[j] == Queue(s, m)[j]; }
    }
  }

  lemma SubmitWellFormed(s: Osd, k: nat, op: Op)
    requires WellFormed(s) && (op.SetMeta? ==> k == 0)
    ensures WellFormed(Submit(s, k, op))
    ensures Tracked(Submit(s, k, op), Completion(k, s.next))
  {
    hide DistinctIds;
    var t := Submit(s, k, op);
    SubmitDistinct(s, k, op);
    assert forall l :: l != k ==> Queue(t, l) == Queue(s, l);
    assert Queue(t, k)[|Queue(s, k)|].id == s.next;
  }

  lemma BelowMeta(s: Osd, op: Op, a: nat)
    requires op.SetMeta? && Below(s, a)
    ensures Below(Submit(s, 0, op), a)
  {
    hide Occupied, Submit;
    forall k: nat | k != 0 && Occupied(Submit(s, 0, op), k) ensures (k + 1) * OBJECT_SIZE <= a {
      OccupiedSubmit(s, 0, op, k);
    }
  }

  lemma MoveSafe(s: Osd, op: Op, b: nat)
    requires Safe(s) && op.SetMeta? && op.alloc == Some(b) && Below(s, b)
    ensures Safe(Submit(s, 0, op))
  {
    hide Below;
    var t := Submit(s, 0, op);
    BelowMeta(s, op, s.meta.alloc);
    forall i | 0 <= i < |Queue(t, 0)| ensures Covering(t, Queue(t, 0)[i].op) {
      var o := Queue(t, 0)[i].op;
      assert i < |Queue(s, 0)| ==> Covering(s, Queue(s, 0)[i].op);
      if o.SetMeta? && o.alloc.Some? { BelowMeta(s, op, o.alloc.value); }
    }
  }

  // ----- what any crash leaves behind

  predicate GoodAlloc(a: nat) {
    a == 0 || (a % OBJECT_SIZE == 0 && MIN_GROWTH <= a)
  }

  /** The persisted allocation, and every one that may become persisted, is 0 or a whole
      number of objects of at least the minimum. */
  ghost predicate GoodAllocs(s: Osd) {
    && GoodAlloc(s.meta.alloc)
    && forall i :: 0 <= i < |Queue(s, 0)| ==> GoodOp(Queue(s, 0)[i].op)
  }

  predicate GoodOp(op: Op) {
    op.SetMeta? && op.alloc.Some? ==> GoodAlloc(op.alloc.value)
  }

  /** Object `k` is stored and nothing queued will remove it. */
  ghost predicate Stays(s: Osd, k: nat) {
    k in s.objects && forall r :: r in Queue(s, k) ==> !r.op.Remove?
  }

  lemma ServeGoodAllocs(s: Osd, k: nat, fault: int)
    requires WellFormed(s) && CanServe(s, k, fault) && GoodAllocs(s)
    ensures GoodAllocs(Serve(s, k, fault))
  {
    hide DistinctIds, WriteAt, GoodAlloc;
    var t := Serve(s, k, fault);
    assert k == 0 ==> GoodOp(Queue(s, k)[0].op);
    forall i | 0 <= i < |Queue(t, 0)| ensures GoodOp(Queue(t, 0)[i].op) {
      assert Queue(t, 0)[i] == if k == 0 then Queue(s, 0)[i + 1] else Queue(s, 0)[i];
    }
  }

  lemma ServeStays(s: Osd, k: nat, fault: int, l: nat)
    requires CanServe(s, k, fault) && Stays(s, l)
    ensures Stays(Serve(s, k, fault), l)
  {
    hide WriteAt;
    ServeQueue(s, k, fault, l);
    assert Queue(s, k)[0] in Queue(s, k);
  }

  // ----- what the client relies on about its own requests

  /** The persisted allocation is `a`, and no queued update will change that. */
  ghost predicate AllocIs(s: Osd, a: nat) {
    && s.meta.alloc == a
    && forall i :: 0 <= i < |Queue(s, 0)| ==> KeepsAlloc(Queue(s, 0)[i].op, a)
  }

  predicate KeepsAlloc(op: Op, a: nat) {
    op.SetMeta? ==> op.alloc == None || op.alloc == Some(a)
  }

  /** Request `id`, the newest on object 0, moves the allocation from `a` to `b` and the
      version from at most `v` to `v + 1`; it does both or neither. */
  ghost predicate Moves(s: Osd, id: nat, a: nat, b: nat, v: nat) {
    var q := Queue(s, 0);
    if id in s.results then
      && q == []
      && s.meta.alloc == (if s.results[id] == 0 then b else a)
      && s.meta.version <= (if s.results[id] == 0 then v + 1 else v)
      && (s.results[id] != 0 ==> !s.clean)
    else
      && q != [] && q[|q| - 1].id == id
      && q[|q| - 1].op.SetMeta? && q[|q| - 1].op.alloc == Some(b) && q[|q| - 1].op.version == v + 1
      && s.meta.alloc == a
      && (forall i :: 0 <= i < |q| - 1 ==> KeepsAlloc(q[i].op, a))
      && Ascends(q[..|q| - 1], s.meta.version, v)
  }

  /** Request `id` is the newest request on object `k`, and it removes the object. */
  ghost predicate Removing(s: Osd, k: nat, id: nat) {
    var q := Queue(s, k);
    if id in s.results then
      s.results[id] == 0 || s.results[id] == -ENOENT ==> !Occupied(s, k)
    else
      q != [] && q[|q| - 1] == Request(id, Remove)
  }

  lemma ServeAllocIs(s: Osd, k: nat, fault: int, a: nat)
    requires WellFormed(s) && CanServe(s, k, fault) && AllocIs(s, a)
    ensures AllocIs(Serve(s, k, fault), a)
  {
    var t := Serve(s, k, fault);
    assert k == 0 ==> KeepsAlloc(Queue(s, k)[0].op, a);
    forall i | 0 <= i < |Queue(t, 0)| ensures KeepsAlloc(Queue(t, 0)[i].op, a) {
      assert Queue(t, 0)[i] == if k == 0 then Queue(s, 0)[i + 1] else Queue(s, 0)[i];
    }
  }

  lemma ServeRemoving(s: Osd, k: nat, fault: int, l: nat, id: nat)
    requires WellFormed(s) && CanServe(s, k, fault) && Removing(s, l, id)
    ensures Removing(Serve(s, k, fault), l, id)
  {
    var t := Serve(s, k, fault);
    if id in s.results {
      assert Queue(s, k)[0].id != id;
      if Occupied(t, l) { ServeOccupied(s, k, fault, l); }
    } else if k == l && |Queue(s, l)| == 1 {
      assert Queue(t, l) == [];
    } else {
      assert Queue(s, k)[0].id != id;
    }
  }

  // ----- versions

  predicate StrictlyIncreasing(s: seq<nat>) {
    forall i, j :: 0 <= i < j < |s| ==> s[i] < s[j]
  }

  /** The versions of the metadata updates in `q` increase from above `lo` to at most `top`. */
  predicate Ascends(q: seq<Request>, lo: nat, top: nat)
    decreases |q|
  {
    if q == [] then lo <= top
    else if q[0].op.SetMeta? then lo < q[0].op.version && Ascends(q[1..], q[0].op.version, top)
    else Ascends(q[1..], lo, top)
  }

  /** The versions applied so far, followed by those still queued, strictly increase and
      end at `top` or before; the persisted version is the last one applied. */
  ghost predicate VersionsUpTo(s: Osd, top: nat) {
    && s.applied != [] && s.applied[|s.applied| - 1] == s.meta.version
    && StrictlyIncreasing(s.applied)
    && Ascends(Queue(s, 0), s.meta.version, top)
  }

  lemma {:induction false} AscendsFromLower(q: seq<Request>, lo: nat, lo': nat, top: nat)
    requires Ascends(q, lo', top) && lo <= lo'
    ensures Ascends(q, lo, top)
    decreases |q|
  {
    if q != [] && !q[0].op.SetMeta? { AscendsFromLower(q[1..], lo, lo', top); }
  }

  lemma {:induction false} AscendsSnoc(q: seq<Request>, lo: nat, top: nat, r: Request)
    requires Ascends(q, lo, top)
    requires r.op.SetMeta? ==> r.op.version == top + 1
    ensures Ascends(q + [r], lo, if r.op.SetMeta? then top + 1 else top)
    decreases |q|
  {
    if q == [] {
      assert q + [r] == [r];
      assert [r][1..] == [];
    } else {
      assert (q + [r])[1..] == q[1..] + [r];
      AscendsSnoc(q[1..], if q[0].op.SetMeta? then q[0].op.version else lo, top, r);
    }
  }

  lemma ServeVersions(s: Osd, k: nat, fault: int, top: nat)
    requires WellFormed(s) && CanServe(s, k, fault) && VersionsUpTo(s, top)
    ensures VersionsUpTo(Serve(s, k, fault), top)
  {
    var t := Serve(s, k, fault);
    var head := Queue(s, k)[0].op;
    if k == 0 {
      assert Queue(t, 0) == Queue(s, 0)[1..];
      if head.SetMeta? && fault < 0 {
        AscendsFromLower(Queue(t, 0), s.meta.version, head.version, top);
      }
    }
  }

  lemma SubmitVersions(s: Osd, k: nat, op: Op, top: nat)
    requires VersionsUpTo(s, top)
    requires op.SetMeta? ==> op.version == top + 1
    ensures VersionsUpTo(Submit(s, k, op), if k == 0 && op.SetMeta? then top + 1 else top)
  {
    AscendsSnoc(Queue(s, 0), s.meta.version, top, Request(s.next, op));
  }

  lemma AscendsEmpty(lo: nat, top: nat)
    ensures Ascends([], lo, top) <==> lo <= top
  {
  }

  lemma AscendsCons(q: seq<Request>, lo: nat, top: nat)
    requires q != [] && Ascends(q, lo, top)
    ensures
      if q[0].op.SetMeta? then lo < q[0].op.version && Ascends(q[1..], q[0].op.version, top)
      else Ascends(q[1..], lo, top)
  {
  }

  lemma TailOfInit(q: seq<Request>)
    requires |q| > 1
    ensures q[..|q| - 1][1..] == q[1..][..|q| - 2]
  {
  }

  lemma ServeMoves(s: Osd, k: nat, fault: int, id: nat, a: nat, b: nat, v: nat)
    requires WellFormed(s) && CanServe(s, k, fault) && Moves(s, id, a, b, v)
    ensures Moves(Serve(s, k, fault), id, a, b, v)
  {
    hide WriteAt, Ascends;
    var q, t := Queue(s, 0), Serve(s, k, fault);
    if id in s.results {
      assert Queue(s, k)[0].id != id;
    } else if k != 0 {
      assert q[|q| - 1].id != Queue(s, k)[0].id;
    } else if |q| == 1 {
      AscendsEmpty(s.meta.version, v);
      assert q[..0] == [];
    } else {
      AscendsCons(q[..|q| - 1], s.meta.version, v);
      assert q[0].id != q[|q| - 1].id && KeepsAlloc(q[0].op, a);
      ServeQueue(s, k, fault, 0);
      TailOfInit(q);
      if q[0].op.SetMeta? && fault < 0 {
        AscendsFromLower(q[1..][..|q| - 2], s.meta.version, q[0].op.version, v);
      }
    }
  }

  // ----- any number of requests served in the background

  /** The request behind `c` has been served or is still queued. */
  ghost predicate Tracked(s: Osd, c: Completion) {
    c.id in s.results || exists i :: 0 <= i < |Queue(s, c.obj)| && Queue(s, c.obj)[i].id == c.id
  }

  /** Requests stay tracked, results stay put, and without faults nothing visible changes. */
  ghost predicate KeepsRequests(a: Osd, b: Osd) {
    && WellFormed(b) && b.next == a.next
    && (forall id :: id in a.results ==> id in b.results && b.results[id] == a.results[id])
    && (forall c :: Tracked(a, c) ==> Tracked(b, c))
    && (forall k, r :: r in Queue(b, k) ==> r in Queue(a, k))
    && (forall k :: Queue(a, k) == [] ==> Queue(b, k) == [] && Data(b, k) == Data(a, k))
    && (b.clean ==> a.clean && MetaView(b) == MetaView(a) && forall k :: View(b, k) == View(a, k))
  }

  ghost predicate KeepsSafety(a: Osd, b: Osd) {
    && (forall k :: Occupied(b, k) ==> Occupied(a, k))
    && (forall x: nat :: Below(a, x) ==> Below(b, x))
    && (Safe(a) ==> Safe(b))
  }

  /** No metadata update is queued. */
  ghost predicate MetaQuiet(s: Osd) {
    forall r :: r in Queue(s, 0) ==> !r.op.SetMeta?
  }

  ghost predicate KeepsMeta(a: Osd, b: Osd) {
    && (MetaQuiet(a) ==> MetaQuiet(b) && b.meta == a.meta)
    && (forall x: nat :: AllocIs(a, x) ==> AllocIs(b, x))
    && (forall v: nat :: VersionsUpTo(a, v) ==> VersionsUpTo(b, v))
    && (forall k: nat, id: nat :: Removing(a, k, id) ==> Removing(b, k, id))
    && (forall id: nat, x: nat, y: nat, v: nat :: Moves(a, id, x, y, v) ==> Moves(b, id, x, y, v))
  }

  /** A request ended badly; a removal that finds nothing did not. */
  predicate Fails(op: Op, rc: int) {
    rc != 0 && !(op.Remove? && rc == -ENOENT)
  }

  /** When something failed on the way, some request that was queued says so. */
  ghost predicate Blames(a: Osd, b: Osd) {
    a.clean && !b.clean ==>
      exists k, r :: r in Queue(a, k) && r.id in b.results && Fails(r.op, b.results[r.id])
  }

  /** An object disappears only through a queued removal, and allocations stay good. */
  ghost predicate KeepsStored(a: Osd, b: Osd) {
    (forall k :: Stays(a, k) ==> Stays(b, k)) && (GoodAllocs(a) ==> GoodAllocs(b))
  }

  /** Everything the client may rely on between `a` and a later state `b` that the OSDs
      reached on their own. */
  ghost predicate Evolves(a: Osd, b: Osd) {
    KeepsRequests(a, b) && KeepsSafety(a, b) && KeepsMeta(a, b) && KeepsStored(a, b) && Blames(a, b)
  }

  lemma ServeTracked(s: Osd, k: nat, fault: int, c: Completion)
    requires WellFormed(s) && CanServe(s, k, fault) && Tracked(s, c)
    ensures Tracked(Serve(s, k, fault), c)
  {
    hide Serve;
    var t := Serve(s, k, fault);
    ServeResult(s, k, fault);
    ServeQueue(s, k, fault, c.obj);
    if c.id !in t.results {
      var i :| 0 <= i < |Queue(s, c.obj)| && Queue(s, c.obj)[i].id == c.id;
      assert Queue(t, c.obj)[if c.obj == k then i - 1 else i].id == c.id;
    }
  }

  lemma ServeResult(s: Osd, k: nat, fault: int)
    requires CanServe(s, k, fault)
    ensures Queue(s, k)[0].id in Serve(s, k, fault).results
    ensures forall id :: id in s.results ==> id in Serve(s, k, fault).results
  {
  }

  lemma ServeQueues(s: Osd, k: nat, fault: int)
    requires WellFormed(s) && CanServe(s, k, fault)
    ensures
      var t := Serve(s, k, fault);
      && t.next == s.next && (t.clean ==> s.clean && fault == 0)
      && (forall l, r :: r in Queue(t, l) ==> r in Queue(s, l))
      && (forall l :: Queue(s, l) == [] ==> Queue(t, l) == [] && Data(t, l) == Data(s, l))
      && (forall id :: id in s.results ==> id in t.results && t.results[id] == s.results[id])
  {
    hide WriteAt;
    var t := Serve(s, k, fault);
    assert Queue(t, k) == Queue(s, k)[1..];
    assert forall l :: l != k ==> Queue(t, l) == Queue(s, l);
    assert Queue(s, k)[0].id !in s.results;
  }

  lemma ServeKeepsRequests(s: Osd, k: nat, fault: int)
    requires WellFormed(s) && CanServe(s, k, fault)
    ensures KeepsRequests(s, Serve(s, k, fault))
  {
    hide Tracked, View, MetaView, WellFormed;
    var t := Serve(s, k, fault);
    ServeQueues(s, k, fault);
    ServeKeepsWellFormed(s, k, fault);
    forall c | Tracked(s, c) ensures Tracked(t, c) { ServeTracked(s, k, fault, c); }
    if fault == 0 {
      forall l ensures View(t, l) == View(s, l) { ServeView(s, k, l); }
      ServeView(s, k, 0);
    }
  }

  lemma ServeKeepsSafety(s: Osd, k: nat, fault: int)
    requires WellFormed(s) && CanServe(s, k, fault)
    ensures KeepsSafety(s, Serve(s, k, fault))
  {
    var t := Serve(s, k, fault);
    forall l | Occupied(t, l) ensures Occupied(s, l) { ServeOccupied(s, k, fault, l); }
    forall x: nat | Below(s, x) ensures Below(t, x) { ServeBelow(s, k, fault, x); }
    if Safe(s) { ServeSafe(s, k, fault); }
  }

  lemma ServeKeepsMeta(s: Osd, k: nat, fault: int)
    requires WellFormed(s) && CanServe(s, k, fault)
    ensures KeepsMeta(s, Serve(s, k, fault))
  {
    var t := Serve(s, k, fault);
    forall x: nat | AllocIs(s, x) ensures AllocIs(t, x) { ServeAllocIs(s, k, fault, x); }
    forall v: nat | VersionsUpTo(s, v) ensures VersionsUpTo(t, v) { ServeVersions(s, k, fault, v); }
    forall l: nat, id: nat | Removing(s, l, id) ensures Removing(t, l, id) { ServeRemoving(s, k, fault, l, id); }
    forall id: nat, x: nat, y: nat, v: nat | Moves(s, id, x, y, v) ensures Moves(t, id, x, y, v) {
      ServeMoves(s, k, fault, id, x, y, v);
    }
  }

  lemma ServeBlames(s: Osd, k: nat, fault: int)
    requires CanServe(s, k, fault)
    ensures Blames(s, Serve(s, k, fault))
  {
    var t, r := Serve(s, k, fault), Queue(s, k)[0];
    if s.clean && !t.clean {
      assert r in Queue(s, k) && r.id in t.results && Fails(r.op, t.results[r.id]);
    }
  }

  lemma ServeKeepsStored(s: Osd, k: nat, fault: int)
    requires WellFormed(s) && CanServe(s, k, fault)
    ensures KeepsStored(s, Serve(s, k, fault))
  {
    hide WellFormed, Stays, GoodAllocs, Serve;
    forall l | Stays(s, l) ensures Stays(Serve(s, k, fault), l) { ServeStays(s, k, fault, l); }
    if GoodAllocs(s) { ServeGoodAllocs(s, k, fault); }
  }

  lemma BlamesTransitive(a: Osd, b: Osd, c: Osd)
    requires KeepsRequests(a, b) && KeepsRequests(b, c) && Blames(a, b) && Blames(b, c)
    ensures Blames(a, c)
  {
    hide WellFormed, Tracked, View, MetaView, Data;
    if a.clean && !c.clean {
      if b.clean {
        var k, r :| r in Queue(b, k) && r.id in c.results && Fails(r.op, c.results[r.id]);
        assert r in Queue(a, k);
      } else {
        var k, r :| r in Queue(a, k) && r.id in b.results && Fails(r.op, b.results[r.id]);
        assert c.results[r.id] == b.results[r.id];
      }
    }
  }

  lemma ServeEvolves(s: Osd, k: nat, fault: int)
    requires WellFormed(s) && CanServe(s, k, fault)
    ensures Evolves(s, Serve(s, k, fault))
  {
    hide KeepsRequests, KeepsSafety, KeepsMeta, KeepsStored, Blames;
    ServeBlames(s, k, fault);
    ServeKeepsStored(s, k, fault);
    ServeKeepsRequests(s, k, fault);
    ServeKeepsSafety(s, k, fault);
    ServeKeepsMeta(s, k, fault);
  }

  lemma EvolvesTransitive(a: Osd, b: Osd, c: Osd)
    requires Evolves(a, b) && Evolves(b, c)
    ensures Evolves(a, c)
  {
    assert KeepsRequests(a, c);
    assert KeepsSafety(a, c);
    assert KeepsMeta(a, c);
    assert KeepsStored(a, c);
    assert Blames(a, c) by { BlamesTransitive(a, b, c); }
  }

  // ----- hand-over to the next client

  /** What the next client needs to find: good allocations and increasing versions. */
  ghost predicate Recoverable(s: Osd) {
    WellFormed(s) && GoodAllocs(s) && exists v: nat :: VersionsUpTo(s, v)
  }

  lemma EvolvesRecoverable(a: Osd, b: Osd, v: nat)
    requires GoodAllocs(a) && VersionsUpTo(a, v) && Evolves(a, b)
    ensures Recoverable(b)
  {
    hide GoodAllocs, VersionsUpTo, WellFormed, KeepsSafety, Blames;
    assert VersionsUpTo(b, v);
  }

  lemma ServeApplied(s: Osd, k: nat, fault: int)
    requires CanServe(s, k, fault)
    ensures s.applied <= Serve(s, k, fault).applied
  {
  }

  lemma {:induction false} CrashRecoverable(s: Osd, run: seq<Served>)
    requires Recoverable(s) && LegalRun(s, run)
    ensures Recoverable(RunEnd(s, run)) && s.applied <= RunEnd(s, run).applied
    decreases |run|
  {
    hide GoodAllocs, VersionsUpTo, WellFormed, Evolves, Serve;
    if run != [] {
      var v: nat :| VersionsUpTo(s, v);
      ServeApplied(s, run[0].obj, run[0].fault);
      ServeEvolves(s, run[0].obj, run[0].fault);
      EvolvesRecoverable(s, Serve(s, run[0].obj, run[0].fault), v);
      CrashRecoverable(Serve(s, run[0].obj, run[0].fault), run[1..]);
    }
  }

  ghost predicate Idle(s: Osd) {
    forall k :: Queue(s, k) == []
  }

  /** With nothing queued, the persisted version is the newest one. */
  lemma IdleVersion(s: Osd)
    requires Recoverable(s) && Idle(s)
    ensures GoodAlloc(s.meta.alloc) && VersionsUpTo(s, s.meta.version)
  {
    hide WellFormed, GoodAlloc;
    var v: nat :| VersionsUpTo(s, v);
    AscendsEmpty(s.meta.version, s.meta.version);
  }

  // ----- fencing: the OSDs refuse whatever a blocklisted client still has queued

  predicate Refusals(run: seq<Served>) {
    forall i :: 0 <= i < |run| ==> run[i].fault == -EBLOCKLISTED
  }

  /** Nothing but queues and results differ. */
  ghost predicate SameStore(a: Osd, b: Osd) {
    b.objects == a.objects && b.meta == a.meta && b.applied == a.applied
  }

  lemma {:induction false} RunAppend(s: Osd, a: seq<Served>, b: seq<Served>)
    requires LegalRun(s, a) && LegalRun(RunEnd(s, a), b)
    ensures LegalRun(s, a + b) && RunEnd(s, a + b) == RunEnd(RunEnd(s, a), b)
    decreases |a|
  {
    hide Serve;
    if a == [] {
      assert a + b == b;
    } else {
      assert (a + b)[1..] == a[1..] + b && (a + b)[0] == a[0];
      RunAppend(Serve(s, a[0].obj, a[0].fault), a[1..], b);
    }
  }

  lemma {:induction false} RefuseObject(s: Osd, k: nat) returns (run: seq<Served>)
    ensures LegalRun(s, run) && Refusals(run) && SameStore(s, RunEnd(s, run))
    ensures Queue(RunEnd(s, run), k) == [] && forall l :: l != k ==> Queue(RunEnd(s, run), l) == Queue(s, l)
    decreases |Queue(s, k)|
  {
    if Queue(s, k) == [] {
      run := [];
    } else {
      var t := Serve(s, k, -EBLOCKLISTED);
      assert Queue(t, k) == Queue(s, k)[1..];
      var rest := RefuseObject(t, k);
      run := [Served(k, -EBLOCKLISTED)] + rest;
      assert run[1..] == rest;
    }
  }

  lemma {:induction false} RefuseObjects(s: Osd, ks: set<nat>) returns (run: seq<Served>)
    requires forall k :: Queue(s, k) != [] ==> k in ks
    ensures LegalRun(s, run) && Refusals(run) && SameStore(s, RunEnd(s, run)) && Idle(RunEnd(s, run))
    decreases |ks|
  {
    hide LegalRun, RunEnd;
    if ks == {} {
      run := [];
      EmptyRun(s);
    } else {
      var k :| k in ks;
      var first := RefuseObject(s, k);
      var rest := RefuseObjects(RunEnd(s, first), ks - {k});
      RunAppend(s, first, rest);
      run := first + rest;
    }
  }

  lemma EmptyRun(s: Osd)
    ensures LegalRun(s, []) && RunEnd(s, []) == s
  {
  }

  /** Refusing requests changes nothing that is stored, whichever and in whatever order. */
  lemma {:induction false} RefusalsKeepStore(s: Osd, run: seq<Served>)
    requires LegalRun(s, run) && Refusals(run)
    ensures SameStore(s, RunEnd(s, run))
    decreases |run|
  {
    if run != [] {
      assert run[0].fault == -EBLOCKLISTED;
      RefusalsKeepStore(Serve(s, run[0].obj, run[0].fault), run[1..]);
    }
  }

  /** Once the client is blocklisted, refusing what it has queued empties every queue and
      changes nothing that is stored. */
  lemma RefuseAll(s: Osd) returns (run: seq<Served>)
    ensures LegalRun(s, run) && Refusals(run) && SameStore(s, RunEnd(s, run)) && Idle(RunEnd(s, run))
  {
    hide LegalRun, RunEnd, Idle;
    run := RefuseObjects(s, s.queues.Keys);
  }
}
