/** The connection to the pool: asynchronous submission, completions and reads.

    Between any two client actions the OSDs serve an arbitrary number of queued requests
    in an arbitrary order, and any of them may fail.  `history` holds every state the pool
    has been in, one entry per submission and one per served request.

    Requests that an earlier, blocklisted client left behind stand in front of the queues.
    The OSDs refuse them one by one, at any time, but before anything behind them; module
    `Leftovers` proves that this is how such a pool behaves.
 */
module PoolIO {
  import opened Wrappers
  import opened Rados
  import opened OsdRuns

  ghost predicate AllEvolve(h: seq<Osd>, from: nat, s: Osd)
    requires from <= |h|
  {
    forall i :: from <= i < |h| ==> Evolves(s, h[i])
  }

  /** No request had failed by then: a failure stays on record. */
  ghost predicate AllClean(h: seq<Osd>) {
    forall i :: 0 <= i < |h| ==> h[i].clean
  }

  class Pool {
    var osd: Osd
    var leftover: map<nat, seq<Request>>
    ghost var history: seq<Osd>
    ghost var readFaults: nat  // how many reads have failed
    ghost var faults: nat  // how many submissions were refused and how many waits ended badly
    ghost var lastFault: int  // the error of the latest such operation, or of the latest failed read

    ghost predicate Valid()
      reads `osd, `history
    {
      WellFormed(osd) && history != [] && history[|history| - 1] == osd && (osd.clean ==> AllClean(history))
    }

    /** Nothing but the OSDs acted since the pool was in state `s` with history `h`. */
    ghost predicate OnlyServed(s: Osd, h: seq<Osd>)
      reads `osd, `history
    {
      Valid() && Evolves(s, osd) && h <= history && AllEvolve(history, |h|, s)
    }

    constructor (s: Osd, leftover: map<nat, seq<Request>>)
      requires WellFormed(s)
      ensures Valid() && osd == s && history == [s] && this.leftover == leftover
    {
      osd := s;
      this.leftover := leftover;
      history := [s];
      readFaults, faults, lastFault := 0, 0, 0;
    }

    /** Refuses the oldest leftover request on `k`. */
    method RefuseOne(k: nat)
      requires Ahead(leftover, k) != []
      modifies `leftover
      ensures leftover == old(leftover)[k := Ahead(old(leftover), k)[1..]]
    {
      leftover := leftover[k := Ahead(leftover, k)[1..]];
    }

    method ServeOne(k: nat, fault: int)
      requires Valid() && CanServe(osd, k, fault) && Ahead(leftover, k) == []
      modifies `osd, `history
      ensures Valid() && osd == Serve(old(osd), k, fault) && history == old(history) + [osd]
      ensures Evolves(old(osd), osd)
    {
      ServeEvolves(osd, k, fault);
      osd := Serve(osd, k, fault);
      history := history + [osd];
    }

    /** Serves or refuses one more request after the pool was in state `s` with history `h`. */
    method ServeAfter(k: nat, ghost s: Osd, ghost h: seq<Osd>)
      requires OnlyServed(s, h) && Ahead(leftover, k) + Queue(osd, k) != []
      modifies `osd, `history, `leftover
      ensures OnlyServed(s, h)
      ensures Ahead(leftover, k) + Queue(osd, k) == (Ahead(old(leftover), k) + Queue(old(osd), k))[1..]
    {
      hide Evolves, WellFormed, Valid, OnlyServed;
      if Ahead(leftover, k) != [] {
        TailOfFirst(Ahead(leftover, k), Queue(osd, k));
        RefuseOne(k);
      } else {
        ServeOwn(k, s, h);
      }
    }

    method ServeOwn(k: nat, ghost s: Osd, ghost h: seq<Osd>)
      requires OnlyServed(s, h) && Ahead(leftover, k) == [] && Queue(osd, k) != []
      modifies `osd, `history
      ensures OnlyServed(s, h) && Queue(osd, k) == Queue(old(osd), k)[1..]
    {
      hide Evolves, WellFormed, Serve, AllClean;
      var fault := ChooseFault(k);
      ServeOne(k, fault);
      ServeQueue(old(osd), k, fault, k);
      EvolvesTransitive(s, old(osd), osd);
      AllEvolveSnoc(old(history), |h|, s, osd);
    }

    /** Chooses how the oldest request on `k` ends. */
    method ChooseFault(k: nat) returns (fault: int)
      requires Queue(osd, k) != []
      ensures CanServe(osd, k, fault)
    {
      fault := *;
      if !CanServe(osd, k, fault) { fault := 0; }
    }

    method Background()
      requires Valid()
      modifies `osd, `history, `leftover
      ensures OnlyServed(old(osd), old(history))
    {
      EvolvesReflexive(osd);
      var n: nat := *;
      while n > 0
        invariant OnlyServed(old(osd), old(history))
        decreases n
      {
        var ks := set k | k in osd.queues.Keys + leftover.Keys && Ahead(leftover, k) + Queue(osd, k) != [];
        if ks != {} {
          var k :| k in ks;
          ServeAfter(k, old(osd), old(history));
        }
        n := n - 1;
      }
    }

    /** Submits a request; a negative result means that it never reached the OSDs. */
    method AioOperate(k: nat, op: Op) returns (rc: int, c: Completion)
      requires Valid() && (op.SetMeta? ==> k == 0)
      modifies `osd, `history, `leftover, `faults, `lastFault
      ensures rc <= 0 && Valid() && old(history) <= history
      ensures faults == old(faults) + (if rc < 0 then 1 else 0)
      ensures lastFault == if rc < 0 then rc else old(lastFault)
      ensures osd.next == old(osd).next + (if rc < 0 then 0 else 1)
      ensures rc < 0 ==> OnlyServed(old(osd), old(history))
      ensures rc == 0 ==>
        var s := Submit(old(osd), k, op);
        && c == Completion(k, old(osd).next)
        && OnlyServed(s, old(history) + [s])
    {
      rc, c := *, Completion(k, osd.next);
      if rc < 0 {
        faults, lastFault := faults + 1, rc;
        Background();
      } else {
        rc := 0;
        SubmitWellFormed(osd, k, op);
        osd := Submit(osd, k, op);
        history := history + [osd];
        Background();
      }
    }

    /** Waits for a request; any result outside `fine` ends the wait badly. */
    method WaitForComplete(c: Completion, ghost fine: set<int>) returns (rc: int)
      requires Valid() && Tracked(osd, c)
      modifies `osd, `history, `leftover, `faults, `lastFault
      ensures OnlyServed(old(osd), old(history))
      ensures Valid() && old(history) <= history
      ensures c.id in osd.results && rc == osd.results[c.id] && rc <= 0
      ensures faults == old(faults) + (if rc in fine then 0 else 1)
      ensures lastFault == (if rc in fine then old(lastFault) else rc) && osd.next == old(osd).next
    {
      hide Evolves, WellFormed, OnlyServed, Valid;
      rc := AwaitResult(c);
      if rc !in fine { faults, lastFault := faults + 1, rc; }
    }

    method AwaitResult(c: Completion) returns (rc: int)
      requires Valid() && Tracked(osd, c)
      modifies `osd, `history, `leftover
      ensures OnlyServed(old(osd), old(history))
      ensures Valid() && old(history) <= history
      ensures c.id in osd.results && rc == osd.results[c.id] && rc <= 0 && osd.next == old(osd).next
    {
      Background();
      while c.id !in osd.results
        invariant OnlyServed(old(osd), old(history)) && Tracked(osd, c)
        decreases |Ahead(leftover, c.obj) + Queue(osd, c.obj)|
      {
        ServeAfter(c.obj, old(osd), old(history));
      }
      rc := osd.results[c.id];
    }

    method IsComplete(c: Completion) returns (done: bool)
      requires Valid()
      modifies `osd, `history, `leftover
      ensures OnlyServed(old(osd), old(history))
      ensures Valid() && old(history) <= history
      ensures done <==> c.id in osd.results
    {
      Background();
      done := c.id in osd.results;
    }

    /** Submits a read; a negative result means that it never reached the OSDs. */
    method AioRead() returns (rc: int)
      modifies `readFaults, `lastFault
      ensures rc <= 0 && readFaults == old(readFaults) + (if rc < 0 then 1 else 0) && (rc < 0 ==> rc == lastFault)
    {
      rc := *;
      if rc < 0 { readFaults, lastFault := readFaults + 1, rc; } else { rc := 0; }
    }

    method Drain(k: nat)
      requires Valid()
      modifies `osd, `history, `leftover
      ensures OnlyServed(old(osd), old(history)) && Ahead(leftover, k) == [] && Queue(osd, k) == []
      ensures Valid() && old(history) <= history
    {
      Background();
      while Ahead(leftover, k) + Queue(osd, k) != []
        invariant OnlyServed(old(osd), old(history))
        decreases |Ahead(leftover, k) + Queue(osd, k)|
      {
        ServeAfter(k, old(osd), old(history));
      }
    }

    /** Reads the metadata attributes, behind whatever is queued on object 0. */
    method GetMeta() returns (rc: int, m: Meta)
      requires Valid()
      modifies `osd, `history, `leftover, `readFaults, `lastFault
      ensures OnlyServed(old(osd), old(history)) && rc <= 0
      ensures Valid() && old(history) <= history
      ensures Queue(osd, 0) == [] && m == osd.meta
      ensures readFaults == old(readFaults) + (if rc < 0 then 1 else 0) && (rc < 0 ==> rc == lastFault)
    {
      hide Evolves, OnlyServed, Valid;
      Drain(0);
      m := osd.meta;
      rc := *;
      if rc < 0 { readFaults, lastFault := readFaults + 1, rc; } else { rc := 0; }
    }

    /** A read queues behind the requests already on the object, so those are served first. */
    method Read(k: nat, off: nat, len: nat) returns (rc: int, bl: seq<byte>)
      requires Valid()
      modifies `osd, `history, `leftover, `readFaults, `lastFault
      ensures OnlyServed(old(osd), old(history)) && rc <= 0
      ensures Valid() && old(history) <= history
      ensures rc == 0 ==> Queue(osd, k) == [] && k in osd.objects && bl == Slice(osd.objects[k], off, len)
      ensures rc == -ENOENT ==> Queue(osd, k) == [] && k !in osd.objects
      ensures readFaults == old(readFaults) + (if rc < 0 && rc != -ENOENT then 1 else 0)
      ensures rc < 0 && rc != -ENOENT ==> rc == lastFault
    {
      hide Evolves;
      Drain(k);
      bl := [];
      var fault: int := *;
      if fault < 0 && fault != -ENOENT {
        rc := fault;
        readFaults, lastFault := readFaults + 1, rc;
      } else if k in osd.objects {
        rc, bl := 0, Slice(osd.objects[k], off, len);
      } else {
        rc := -ENOENT;
      }
    }
  }

  lemma TailOfFirst(a: seq<Request>, b: seq<Request>)
    requires a != []
    ensures (a + b)[1..] == a[1..] + b
  {
  }

  lemma AllEvolveSnoc(h: seq<Osd>, from: nat, s: Osd, t: Osd)
    requires from <= |h| && AllEvolve(h, from, s) && Evolves(s, t)
    ensures AllEvolve(h + [t], from, s)
  {
  }

  /** The part of the object that the requested range overlaps. */
  function Slice(d: seq<byte>, off: nat, len: nat): seq<byte> {
    if |d| <= off then [] else if |d| <= off + len then d[off..] else d[off..off + len]
  }

  lemma EvolvesReflexive(s: Osd)
    requires WellFormed(s)
    ensures Evolves(s, s)
  {
  }
}
