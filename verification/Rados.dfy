/** The RADOS pool as the striper sees it.

    The objects of one file are keyed by stripe number (module `Encoding` proves that the
    textual object names are in one-to-one correspondence with file name and stripe).
    The metadata extended attributes live on object 0.  Requests queue up per object and
    are served in FIFO order; requests on different objects are served in any order.  A
    request that fails is not applied, and a compound request is applied as a whole.
 */
module Rados {
  import opened Wrappers

  newtype byte = x: int | 0 <= x < 256

  const OBJECT_SIZE: nat := 0x40_0000
  const MIN_GROWTH: nat := 0x800_0000
  const ENOENT: int := 2
  const EBLOCKLISTED: int := 108

  datatype Op =
    | Write(off: nat, bytes: seq<byte>)
    | Remove
    | SetMeta(alloc: Option<nat>, size: Option<nat>, version: nat)

  datatype Request = Request(id: nat, op: Op)

  /** The handle on which the client waits for one request. */
  datatype Completion = Completion(obj: nat, id: nat)

  datatype Meta = Meta(size: nat, alloc: nat, version: nat)

  /** `applied` lists the versions of the metadata updates that took effect, and `clean`
      says that no request has failed since the client connected. */
  datatype Osd = Osd(
    objects: map<nat, seq<byte>>,
    meta: Meta,
    queues: map<nat, seq<Request>>,
    results: map<nat, int>,
    next: nat,
    clean: bool,
    applied: seq<nat>)

  function Queue(s: Osd, k: nat): seq<Request> {
    if k in s.queues then s.queues[k] else []
  }

  /** The requests of a blocklisted client that stand in front of the queue of object `k`. */
  function Ahead(left: map<nat, seq<Request>>, k: nat): seq<Request> {
    if k in left then left[k] else []
  }

  function Data(s: Osd, k: nat): Option<seq<byte>> {
    if k in s.objects then Some(s.objects[k]) else None
  }

  /** A write extends the object and fills a gap with zeros. */
  function WriteAt(prev: Option<seq<byte>>, off: nat, bytes: seq<byte>): (r: seq<byte>)
    ensures |r| >= off + |bytes| && (|r| == off + |bytes| || (prev.Some? && |r| == |prev.value|))
    ensures forall i :: 0 <= i < |bytes| ==> r[off + i] == bytes[i]
    ensures prev.Some? ==> |r| >= |prev.value|
    ensures forall i :: (if prev.Some? then |prev.value| else 0) <= i < off ==> r[i] == 0
    ensures prev.Some? ==> forall i :: 0 <= i < |prev.value| && !(off <= i < off + |bytes|) ==> r[i] == prev.value[i]
  {
    var base := if prev.Some? then prev.value else [];
    var padded := if |base| < off then base + seq(off - |base|, _ => 0) else base;
    padded[..off] + bytes + (if |padded| > off + |bytes| then padded[off + |bytes|..] else [])
  }

  function ApplyData(d: Option<seq<byte>>, op: Op): Option<seq<byte>> {
    match op
    case Write(off, bytes) => Some(WriteAt(d, off, bytes))
    case Remove => None
    case SetMeta(_, _, _) => d
  }

  function ApplyMeta(m: Meta, op: Op): Meta {
    match op
    case SetMeta(a, sz, v) =>
      Meta(if sz.Some? then sz.value else m.size, if a.Some? then a.value else m.alloc, v)
    case _ => m
  }

  /** The client hands a request for object `k` to the OSDs. */
  function Submit(s: Osd, k: nat, op: Op): Osd {
    s.(queues := s.queues[k := Queue(s, k) + [Request(s.next, op)]], next := s.next + 1)
  }

  /** The OSDs serve the oldest request on object `k`: they fail it with the error `fault`
      when that is negative, and apply it otherwise. */
  function Serve(s: Osd, k: nat, fault: int): Osd
    requires Queue(s, k) != [] && fault <= 0
  {
    var req := Queue(s, k)[0];
    var rest := s.queues[k := Queue(s, k)[1..]];
    if fault < 0 then
      s.(queues := rest, results := s.results[req.id := fault], clean := false)
    else
      match req.op
      case Write(off, bytes) =>
        s.(queues := rest, results := s.results[req.id := 0],
           objects := s.objects[k := WriteAt(Data(s, k), off, bytes)])
      case Remove =>
        s.(queues := rest, results := s.results[req.id := if k in s.objects then 0 else -ENOENT],
           objects := s.objects - {k})
      case SetMeta(_, _, v) =>
        s.(queues := rest, results := s.results[req.id := 0],
           meta := ApplyMeta(s.meta, req.op), applied := s.applied + [v])
  }

  /** A failing removal reports something other than "no such object". */
  predicate CanServe(s: Osd, k: nat, fault: int) {
    Queue(s, k) != [] && fault <= 0 && (Queue(s, k)[0].op.Remove? ==> fault != -ENOENT)
  }

  ghost predicate DistinctIds(s: Osd) {
    forall k, i, l, j :: 0 <= i < |Queue(s, k)| && 0 <= j < |Queue(s, l)| && Queue(s, k)[i].id == Queue(s, l)[j].id
      ==> k == l && i == j
  }

  /** Identifiers are never reused, results are not positive, and metadata updates go to
      object 0 only. */
  ghost predicate WellFormed(s: Osd) {
    && (forall id :: id in s.results ==> id < s.next && s.results[id] <= 0)
    && (forall k, i :: 0 <= i < |Queue(s, k)| ==> Queue(s, k)[i].id < s.next && Queue(s, k)[i].id !in s.results)
    && DistinctIds(s)
    && (forall k, i :: 0 <= i < |Queue(s, k)| && Queue(s, k)[i].op.SetMeta? ==> k == 0)
  }

  lemma ServeQueue(s: Osd, k: nat, fault: int, l: nat)
    requires CanServe(s, k, fault)
    ensures Queue(Serve(s, k, fault), l) == if l == k then Queue(s, k)[1..] else Queue(s, l)
  {
  }

  lemma ServeKeepsDistinct(s: Osd, k: nat, fault: int)
    requires DistinctIds(s) && CanServe(s, k, fault)
    ensures DistinctIds(Serve(s, k, fault))
  {
    hide Serve;
    var t := Serve(s, k, fault);
    forall l, i, m, j | 0 <= i < |Queue(t, l)| && 0 <= j < |Queue(t, m)| && Queue(t, l)[i].id == Queue(t, m)[j].id
      ensures l == m && i == j
    {
      ServeQueue(s, k, fault, l);
      ServeQueue(s, k, fault, m);
      assert Queue(s, l)[if l == k then i + 1 else i].id == Queue(s, m)[if m == k then j + 1 else j].id;
    }
  }

  lemma ServeKeepsWellFormed(s: Osd, k: nat, fault: int)
    requires WellFormed(s) && CanServe(s, k, fault)
    ensures WellFormed(Serve(s, k, fault))
  {
    var t := Serve(s, k, fault);
    ServeKeepsDistinct(s, k, fault);
    forall l, i | 0 <= i < |Queue(t, l)|
      ensures Queue(t, l)[i].id < t.next && Queue(t, l)[i].id !in t.results
      ensures Queue(t, l)[i].op.SetMeta? ==> l == 0
    {
      ServeQueue(s, k, fault, l);
      var j := if l == k then i + 1 else i;
      assert Queue(t, l)[i] == Queue(s, l)[j];
      assert Queue(s, l)[j].id != Queue(s, k)[0].id;
    }
  }
}
