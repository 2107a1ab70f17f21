/** A client opens the file while requests of its blocklisted predecessor are still queued.

    The real pool holds both clients' requests in one queue per object.  Here it is compared
    with the pool that holds the new client's requests only: every run of the real pool is,
    for the new client, a run of that pool.
 */
module Leftovers {
  import opened Wrappers
  import opened Rados
  import opened OsdRuns
  import opened StriperState

  type Left = map<nat, seq<Request>>

  /** `full` is the pool `s` of the new client with the requests `left` in front.  The two
      agree on everything the new client can see. */
  ghost predicate Shows(full: Osd, s: Osd, left: Left) {
    && WellFormed(full) && SameStore(full, s) && full.next == s.next
    && (forall k :: Queue(full, k) == Ahead(left, k) + Queue(s, k))
    && (forall id :: id in s.results ==> id in full.results && full.results[id] == s.results[id])
  }

  /** What happens next in the real pool. */
  datatype Event = Sends(obj: nat, op: Op) | Serves(obj: nat, fault: int)

  /** The OSDs refuse what the blocklisted client left, and serve or fail the rest. */
  predicate CanHappen(full: Osd, left: Left, e: Event) {
    match e
    case Sends(k, op) => op.SetMeta? ==> k == 0
    case Serves(k, fault) => CanServe(full, k, fault) && (Ahead(left, k) != [] ==> fault == -EBLOCKLISTED)
  }

  function Happens(full: Osd, left: Left, e: Event): Osd
    requires CanHappen(full, left, e)
  {
    match e
    case Sends(k, op) => Submit(full, k, op)
    case Serves(k, fault) => Serve(full, k, fault)
  }

  /** One leftover request less, if the event was its refusal. */
  function LeftAfter(left: Left, e: Event): Left {
    if e.Serves? && Ahead(left, e.obj) != [] then left[e.obj := Ahead(left, e.obj)[1..]] else left
  }

  /** The same event as the new client's pool sees it: a refusal is none at all. */
  function Seen(s: Osd, left: Left, e: Event): Osd
    requires e.Serves? && Ahead(left, e.obj) == [] ==> CanServe(s, e.obj, e.fault)
  {
    match e
    case Sends(k, op) => Submit(s, k, op)
    case Serves(k, fault) => if Ahead(left, k) != [] then s else Serve(s, k, fault)
  }

  /** Refusing a leftover request shows nowhere. */
  lemma RefusalUnseen(full: Osd, s: Osd, left: Left, k: nat)
    requires Shows(full, s, left) && Ahead(left, k) != [] && CanServe(full, k, -EBLOCKLISTED)
    ensures Shows(Serve(full, k, -EBLOCKLISTED), s, left[k := Ahead(left, k)[1..]])
  {
    hide WellFormed, WriteAt;
    var t, rest := Serve(full, k, -EBLOCKLISTED), left[k := Ahead(left, k)[1..]];
    ServeKeepsWellFormed(full, k, -EBLOCKLISTED);
    HeadUndone(full, k);
    forall l ensures Queue(t, l) == Ahead(rest, l) + Queue(s, l) {
      ServeQueue(full, k, -EBLOCKLISTED, l);
      assert l == k ==> (Ahead(left, k) + Queue(s, k))[1..] == Ahead(left, k)[1..] + Queue(s, k);
    }
  }

  lemma HeadUndone(s: Osd, k: nat)
    requires WellFormed(s) && Queue(s, k) != []
    ensures Queue(s, k)[0].id !in s.results
  {
  }

  /** Behind the leftover requests the new client's requests are served as if alone. */
  lemma ServedAlike(full: Osd, s: Osd, left: Left, k: nat, fault: int)
    requires Shows(full, s, left) && Ahead(left, k) == [] && CanServe(full, k, fault)
    ensures CanServe(s, k, fault) && Shows(Serve(full, k, fault), Serve(s, k, fault), left)
  {
    hide WellFormed, Serve, Stored, ApplyMeta;
    assert Ahead(left, k) + Queue(s, k) == Queue(s, k);
    ServeKeepsWellFormed(full, k, fault);
    ServedParts(full, k, fault);
    ServedParts(s, k, fault);
    ServedResult(full, k, fault);
    ServedResult(s, k, fault);
    var t, u := Serve(full, k, fault), Serve(s, k, fault);
    forall l ensures Queue(t, l) == Ahead(left, l) + Queue(u, l) {
      ServeQueue(full, k, fault, l);
      ServeQueue(s, k, fault, l);
      assert l == k ==> [] + Queue(s, k)[1..] == Queue(s, k)[1..];
    }
  }

  /** What one request makes of the stored objects. */
  function Stored(objects: map<nat, seq<byte>>, k: nat, op: Op): map<nat, seq<byte>> {
    match op
    case Write(off, bytes) => objects[k := WriteAt(if k in objects then Some(objects[k]) else None, off, bytes)]
    case Remove => objects - {k}
    case SetMeta(_, _, _) => objects
  }

  lemma ServedParts(s: Osd, k: nat, fault: int)
    requires CanServe(s, k, fault)
    ensures
      var t, op := Serve(s, k, fault), Queue(s, k)[0].op;
      && t.objects == (if fault < 0 then s.objects else Stored(s.objects, k, op))
      && t.meta == (if fault < 0 then s.meta else ApplyMeta(s.meta, op))
      && t.applied == (if fault == 0 && op.SetMeta? then s.applied + [op.version] else s.applied)
      && t.next == s.next
  {
    hide WriteAt;
  }

  /** The result of serving the oldest request on `k`. */
  function ResultOf(s: Osd, k: nat, fault: int): int
    requires CanServe(s, k, fault)
  {
    if fault == 0 && Queue(s, k)[0].op.Remove? && k !in s.objects then -ENOENT else fault
  }

  lemma ServedResult(s: Osd, k: nat, fault: int)
    requires CanServe(s, k, fault)
    ensures Serve(s, k, fault).results == s.results[Queue(s, k)[0].id := ResultOf(s, k, fault)]
  {
    hide WriteAt;
  }

  lemma SentAlike(full: Osd, s: Osd, left: Left, k: nat, op: Op)
    requires Shows(full, s, left) && (op.SetMeta? ==> k == 0)
    ensures Shows(Submit(full, k, op), Submit(s, k, op), left)
  {
    hide WellFormed, Submit;
    SubmitWellFormed(full, k, op);
    SubmitParts(full, k, op);
    SubmitParts(s, k, op);
    forall l ensures Queue(Submit(full, k, op), l) == Ahead(left, l) + Queue(Submit(s, k, op), l) {
      SubmitQueue(full, k, op, l);
      SubmitQueue(s, k, op, l);
    }
  }

  lemma SubmitParts(s: Osd, k: nat, op: Op)
    ensures SameStore(s, Submit(s, k, op)) && Submit(s, k, op).next == s.next + 1
    ensures Submit(s, k, op).results == s.results
  {
  }

  lemma SeenAlike(full: Osd, s: Osd, left: Left, e: Event)
    requires Shows(full, s, left) && CanHappen(full, left, e)
    ensures e.Serves? && Ahead(left, e.obj) == [] ==> CanServe(s, e.obj, e.fault)
    ensures Shows(Happens(full, left, e), Seen(s, left, e), LeftAfter(left, e))
  {
    hide Shows, Serve, Submit;
    match e {
      case Sends(k, op) => SentAlike(full, s, left, k, op);
      case Serves(k, fault) =>
        if Ahead(left, k) != [] { RefusalUnseen(full, s, left, k); } else { ServedAlike(full, s, left, k, fault); }
    }
  }

  // ----- whole runs

  ghost predicate CanRun(full: Osd, left: Left, es: seq<Event>)
    decreases |es|
  {
    es == [] || (CanHappen(full, left, es[0]) && CanRun(Happens(full, left, es[0]), LeftAfter(left, es[0]), es[1..]))
  }

  ghost function RealEnd(full: Osd, left: Left, es: seq<Event>): Osd
    requires CanRun(full, left, es)
    decreases |es|
  {
    if es == [] then full else RealEnd(Happens(full, left, es[0]), LeftAfter(left, es[0]), es[1..])
  }

  function LeftEnd(left: Left, es: seq<Event>): Left
    decreases |es|
  {
    if es == [] then left else LeftEnd(LeftAfter(left, es[0]), es[1..])
  }

  /** The events without the refusals. */
  function Own(left: Left, es: seq<Event>): seq<Event>
    decreases |es|
  {
    if es == [] then []
    else if es[0].Serves? && Ahead(left, es[0].obj) != [] then Own(LeftAfter(left, es[0]), es[1..])
    else [es[0]] + Own(LeftAfter(left, es[0]), es[1..])
  }

  /** Every run of the real pool is, for the new client, the run of its own pool in which the
      refusals are left out: it ends with the same objects, metadata and results. */
  lemma {:induction false} RunsAlike(full: Osd, s: Osd, left: Left, es: seq<Event>)
    requires Shows(full, s, left) && CanRun(full, left, es)
    ensures CanRun(s, map[], Own(left, es))
    ensures Shows(RealEnd(full, left, es), RealEnd(s, map[], Own(left, es)), LeftEnd(left, es))
    decreases |es|
  {
    hide Shows, Serve, Submit;
    if es != [] {
      var e := es[0];
      SeenAlike(full, s, left, e);
      RunsAlike(Happens(full, left, e), Seen(s, left, e), LeftAfter(left, e), es[1..]);
      var rest := Own(LeftAfter(left, e), es[1..]);
      if !(e.Serves? && Ahead(left, e.obj) != []) {
        assert ([e] + rest)[0] == e && ([e] + rest)[1..] == rest;
        OwnEvent(s, left, e);
      }
    }
  }

  lemma OwnEvent(s: Osd, left: Left, e: Event)
    requires e.Serves? ==> Ahead(left, e.obj) == [] && CanServe(s, e.obj, e.fault)
    requires e.Sends? ==> e.op.SetMeta? ==> e.obj == 0
    ensures CanHappen(s, map[], e) && Happens(s, map[], e) == Seen(s, left, e) && LeftAfter(map[], e) == map[]
  {
  }

  // ----- opening at once

  /** The pool of the new client: what the old one has queued is set aside. */
  function Fenced(s: Osd): Osd {
    s.(queues := map[])
  }

  /** A client may crash in any state the pool was ever in, any of its requests may still be
      served or fail, and then it is blocklisted: the next client can open the file at once,
      while the rest is still queued. */
  lemma OpensAtOnce(c: Client, s: Osd, h: seq<Osd>, i: nat, run: seq<Served>)
    requires Core(c, s, h) && i < |h| && LegalRun(h[i], run)
    ensures
      var t := RunEnd(h[i], run);
      && Shows(t, Reconnected(Fenced(t)), t.queues)
      && CanOpen(Reconnected(Fenced(t)))
      && (c.covered ==> EverSafe([Reconnected(Fenced(t))]))
  {
    hide AiosOk, Outstanding, MetaOk, LegalRun, RunEnd, Recoverable, Safe;
    var t := RunEnd(h[i], run);
    CrashRecoverable(h[i], run);
    if c.covered { CrashSafe(h[i], run); }
    FencedRecoverable(t);
    ReconnectedOpens(Fenced(t));
    ShowsFenced(t);
  }

  lemma ShowsFenced(t: Osd)
    requires WellFormed(t)
    ensures Shows(t, Reconnected(Fenced(t)), t.queues)
  {
    hide WellFormed;
    forall k ensures Queue(t, k) == Ahead(t.queues, k) + Queue(Reconnected(Fenced(t)), k) {
      assert Ahead(t.queues, k) + [] == Ahead(t.queues, k);
    }
  }

  lemma FencedRecoverable(t: Osd)
    requires Recoverable(t)
    ensures WellFormed(t) && Recoverable(Fenced(t)) && Idle(Fenced(t)) && (Safe(t) ==> Safe(Fenced(t)))
  {
    var u := Fenced(t);
    assert forall k :: Queue(u, k) == [];
    assert VersionsUpTo(u, u.meta.version);
    if Safe(t) {
      assert forall k: nat :: Occupied(u, k) ==> Occupied(t, k);
      assert Below(u, u.meta.alloc);
    }
  }
}
