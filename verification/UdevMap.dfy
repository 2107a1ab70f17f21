/** Waiting for a mapped rbd image: the handler that pairs rbd and block events in whatever
    order they come, and the loop that waits for the kernel's verdict and for the events.
 */
module UdevMap {
  import opened Wrappers

  const DEVNODE_PREFIX: string := "/dev/rbd"
  const SNAP_HEAD_NAME: string := "-"

  datatype Spec = Spec(pool: string, nspace: string, image: string, snap: string)

  /** A udev event; the sysfs attributes may be missing. */
  datatype Dev = Dev(
    action: string, subsystem: string, sysname: string, devnode: string, major: string, minor: string,
    pool: Option<string>, poolNs: Option<string>, name: Option<string>, currentSnap: Option<string>)

  function MakeSpec(pool: string, nspace: string, image: string, snap: string): Spec {
    Spec(pool, nspace, image, if snap == "" then SNAP_HEAD_NAME else snap)
  }

  function SpecFromDev(d: Dev): Option<Spec> {
    if d.pool.None? || d.name.None? || d.currentSnap.None? then None
    else Some(MakeSpec(d.pool.value, if d.poolNs.Some? then d.poolNs.value else "", d.name.value, d.currentSnap.value))
  }

  function Devnode(d: Dev): string {
    DEVNODE_PREFIX + d.sysname
  }

  // ----- what the handler looks for in the history of events

  /** An rbd device appears whose attributes are those of the image.  A missing namespace
      reads as none, and an empty snapshot name as the head of the image. */
  predicate IsBus(spec: Spec, d: Dev) {
    && d.action == "add" && d.subsystem == "rbd"
    && d.pool == Some(spec.pool) && d.name == Some(spec.image)
    && (d.poolNs == Some(spec.nspace) || (d.poolNs == None && spec.nspace == ""))
    && ((d.currentSnap == Some(spec.snap) && spec.snap != "") || (d.currentSnap == Some("") && spec.snap == "-"))
  }

  /** The comparison of the specifications says the same. */
  lemma SpecMatches(spec: Spec, d: Dev)
    requires d.action == "add" && d.subsystem == "rbd"
    ensures SpecFromDev(d) == Some(spec) <==> IsBus(spec, d)
  {
  }

  predicate IsBlockAt(d: Dev, node: string) {
    d.action == "add" && d.subsystem == "block" && d.devnode == node
  }

  /** Event `i` is the first rbd event that matches the image. */
  predicate FirstBus(spec: Spec, h: seq<Dev>, i: int) {
    0 <= i < |h| && IsBus(spec, h[i]) && forall k :: 0 <= k < i ==> !IsBus(spec, h[k])
  }

  /** Event `j` is the first block event for that node. */
  predicate FirstBlock(h: seq<Dev>, node: string, j: int) {
    0 <= j < |h| && IsBlockAt(h[j], node) && forall k :: 0 <= k < j ==> !IsBlockAt(h[k], node)
  }

  /** The history holds a matching rbd event and, anywhere, the block event that belongs to
      the first one. */
  ghost predicate Complete(spec: Spec, h: seq<Dev>) {
    exists i, j :: FirstBus(spec, h, i) && FirstBlock(h, Devnode(h[i]), j)
  }

  /** No later event undoes this. */
  lemma CompleteStays(spec: Spec, h: seq<Dev>, more: seq<Dev>)
    requires Complete(spec, h)
    ensures Complete(spec, h + more)
  {
    var i, j :| FirstBus(spec, h, i) && FirstBlock(h, Devnode(h[i]), j);
    assert FirstBus(spec, h + more, i) && FirstBlock(h + more, Devnode((h + more)[i]), j);
  }

  function Find(h: seq<Dev>, p: Dev -> bool): Option<Dev> {
    if h == [] then None else if p(h[0]) then Some(h[0]) else Find(h[1..], p)
  }

  function FindBus(spec: Spec, h: seq<Dev>): Option<Dev> {
    Find(h, d => IsBus(spec, d))
  }

  function FindBlock(h: seq<Dev>, node: string): Option<Dev> {
    Find(h, d => IsBlockAt(d, node))
  }

  predicate FirstAt(h: seq<Dev>, p: Dev -> bool, i: int) {
    0 <= i < |h| && p(h[i]) && forall k :: 0 <= k < i ==> !p(h[k])
  }

  lemma {:induction false} FindMeaning(h: seq<Dev>, p: Dev -> bool) returns (i: int)
    ensures Find(h, p).Some? ==> FirstAt(h, p, i) && h[i] == Find(h, p).value
    ensures Find(h, p).None? ==> forall k :: 0 <= k < |h| ==> !p(h[k])
  {
    i := 0;
    if h != [] && !p(h[0]) {
      var k := FindMeaning(h[1..], p);
      i := k + 1;
    }
  }

  lemma {:induction false} FindAppend(a: seq<Dev>, b: seq<Dev>, p: Dev -> bool)
    ensures Find(a + b, p) == if Find(a, p).Some? then Find(a, p) else Find(b, p)
  {
    if a == [] {
      assert a + b == b;
    } else {
      assert (a + b)[1..] == a[1..] + b;
      FindAppend(a[1..], b, p);
    }
  }

  /** Completeness in terms of the first matching events. */
  lemma CompleteFinds(spec: Spec, h: seq<Dev>)
    ensures Complete(spec, h) <==> FindBus(spec, h).Some? && FindBlock(h, Devnode(FindBus(spec, h).value)).Some?
    ensures Complete(spec, h) ==>
      exists i, j :: FirstBus(spec, h, i) && FirstBlock(h, Devnode(h[i]), j)
        && h[i] == FindBus(spec, h).value && h[j] == FindBlock(h, Devnode(h[i])).value
  {
    var isBus := d => IsBus(spec, d);
    var i := FindMeaning(h, isBus);
    if FindBus(spec, h).Some? {
      var node := Devnode(h[i]);
      assert FirstBus(spec, h, i) by { assert FirstAt(h, isBus, i); }
      var isBlock := d => IsBlockAt(d, node);
      var j := FindMeaning(h, isBlock);
      if Find(h, isBlock).Some? { assert FirstBlock(h, node, j) by { assert FirstAt(h, isBlock, j); } }
      assert forall k :: FirstBus(spec, h, k) ==> k == i;
    }
  }

  predicate IsCandidate(d: Dev) {
    d.action == "add" && d.subsystem == "block" && DEVNODE_PREFIX <= d.devnode
  }

  /** The block events that could belong to an rbd device, in order. */
  function Candidates(h: seq<Dev>): seq<Dev> {
    if h == [] then []
    else (if IsCandidate(h[0]) then [h[0]] else []) + Candidates(h[1..])
  }

  lemma {:induction false} CandidatesAppend(h: seq<Dev>, d: Dev)
    ensures Candidates(h + [d]) == Candidates(h) + if IsCandidate(d) then [d] else []
  {
    hide IsCandidate;
    if h == [] {
      assert h + [d] == [d] && [d][1..] == [];
    } else {
      var first, rest, last := if IsCandidate(h[0]) then [h[0]] else [], Candidates(h[1..]),
        if IsCandidate(d) then [d] else [];
      assert (h + [d])[1..] == h[1..] + [d] && (h + [d])[0] == h[0];
      CandidatesAppend(h[1..], d);
      assert first + (rest + last) == (first + rest) + last;
    }
  }

  lemma FindSnoc(spec: Spec, h: seq<Dev>, d: Dev, node: string)
    ensures FindBus(spec, h + [d])
         == if FindBus(spec, h).Some? then FindBus(spec, h) else if IsBus(spec, d) then Some(d) else None
    ensures FindBlock(h + [d], node)
         == if FindBlock(h, node).Some? then FindBlock(h, node) else if IsBlockAt(d, node) then Some(d) else None
  {
    FindAppend(h, [d], x => IsBus(spec, x));
    FindAppend(h, [d], x => IsBlockAt(x, node));
  }

  /** What the handler knows after `h`, before it looks for the pair: the first matching rbd
      device and enough of the block devices to find its partner. */
  predicate Known(spec: Spec, h: seq<Dev>, bus: Option<Dev>, blocks: seq<Dev>) {
    && bus == FindBus(spec, h)
    && (bus.None? ==> blocks == Candidates(h))
    && (bus.Some? ==> FindBlock(blocks, Devnode(bus.value)) == FindBlock(h, Devnode(bus.value)))
    && (forall d :: d in blocks ==> IsCandidate(d))
  }

  lemma {:induction false} CandidatesAre(h: seq<Dev>)
    ensures forall d :: d in Candidates(h) ==> IsCandidate(d)
  {
    hide IsCandidate;
    if h != [] { CandidatesAre(h[1..]); }
  }

  lemma KnownAfter(spec: Spec, h: seq<Dev>, dev: Dev, bus: Option<Dev>, blocks: seq<Dev>)
    requires Known(spec, h, bus, blocks)
    ensures
      var bus' := if bus.None? && IsBus(spec, dev) then Some(dev) else bus;
      var blocks' := if IsCandidate(dev) then blocks + [dev] else blocks;
      Known(spec, h + [dev], bus', blocks')
  {
    var bus' := if bus.None? && IsBus(spec, dev) then Some(dev) else bus;
    FindSnoc(spec, h, dev, if bus'.Some? then Devnode(bus'.value) else "");
    CandidatesAppend(h, dev);
    CandidatesAre(h);
    if bus'.Some? {
      var node := Devnode(bus'.value);
      CandidatesSuffice(h, node);
      FindSnoc(spec, blocks, dev, node);
      assert IsBlockAt(dev, node) ==> IsCandidate(dev);
    }
  }

  /** Buffering only the candidates loses nothing. */
  lemma {:induction false} CandidatesSuffice(h: seq<Dev>, node: string)
    requires DEVNODE_PREFIX <= node
    ensures FindBlock(Candidates(h), node) == FindBlock(h, node)
  {
    if h != [] {
      CandidatesSuffice(h[1..], node);
      var p := d => IsBlockAt(d, node);
      FindAppend(if IsCandidate(h[0]) then [h[0]] else [], Candidates(h[1..]), p);
    }
  }

  /** The pair is complete exactly when the partner is among the buffered devices, and if it
      is not, the buffer can be dropped. */
  lemma Settle(spec: Spec, h: seq<Dev>, bus: Option<Dev>, blocks: seq<Dev>)
    requires Known(spec, h, bus, blocks)
    ensures Complete(spec, h) <==> bus.Some? && FindBlock(blocks, Devnode(bus.value)).Some?
    ensures bus.Some? && FindBlock(blocks, Devnode(bus.value)).None? ==> Known(spec, h, bus, [])
    ensures forall d :: d in blocks ==> IsCandidate(d)
    ensures bus.Some? && blocks == [] ==> !Complete(spec, h)
    ensures Complete(spec, h) ==>
      var p := FindBlock(blocks, Devnode(bus.value)).value;
      exists i, j :: FirstBus(spec, h, i) && FirstBlock(h, Devnode(h[i]), j) && h[j] == p
        && Devnode(h[i]) == Devnode(bus.value)
  {
    CompleteFinds(spec, h);
  }

  lemma NotBus(spec: Spec, d: Dev)
    ensures d.action != "add" || d.subsystem != "rbd" ==> !IsBus(spec, d)
  {
  }

  class MapHandler {
    const spec: Spec
    var busDev: Option<Dev>
    var blockDevs: seq<Dev>
    var devnode: string
    var outDevnode: string
    var majnum: string
    var minnum: string
    ghost var history: seq<Dev>
    ghost var accepted: bool

    /** Before it accepts, the handler has the first matching rbd device and, until there is
        one, every candidate block device; afterwards no block device seen so far fits. */
    ghost predicate Valid()
      reads this
    {
      && (accepted <==> Complete(spec, history))
      && (!accepted ==>
            && Known(spec, history, busDev, blockDevs)
            && (busDev.Some? ==> devnode == Devnode(busDev.value) && blockDevs == []))
    }

    constructor (spec: Spec)
      ensures Valid() && !accepted && history == [] && this.spec == spec
    {
      this.spec := spec;
      busDev, blockDevs, devnode := None, [], "";
      outDevnode, majnum, minnum := "", "", "";
      history, accepted := [], false;
    }

    /** Handles one event.  It returns true at exactly the event that completes the history,
        and then reports the first block device of the first matching rbd device. */
    method Handle(dev: Dev) returns (done: bool)
      requires Valid() && !accepted
      modifies this
      ensures Valid() && history == old(history) + [dev]
      ensures done <==> Complete(spec, history)
      ensures done <==> accepted
      ensures done ==> exists i, j ::
        && FirstBus(spec, history, i) && FirstBlock(history, Devnode(history[i]), j)
        && outDevnode == history[j].devnode == "/dev/rbd" + history[i].sysname
        && majnum == history[j].major && minnum == history[j].minor
    {
      hide Known, Complete, FindBlock, FindBus, IsBus;
      if dev.action == "add" && dev.subsystem == "rbd" { SpecMatches(spec, dev); }
      NotBus(spec, dev);
      KnownAfter(spec, history, dev, busDev, blockDevs);
      history := history + [dev];
      CompleteFinds(spec, history);
      if dev.action != "add" {
        Settle(spec, history, busDev, blockDevs);
        return false;
      }
      if dev.subsystem == "rbd" {
        if busDev.None? {
          var s := SpecFromDev(dev);
          if s == Some(spec) {
            busDev := Some(dev);
            devnode := Devnode(dev);
          }
        }
      } else if dev.subsystem == "block" {
        if DEVNODE_PREFIX <= dev.devnode {
          blockDevs := blockDevs + [dev];
        }
      }
      Settle(spec, history, busDev, blockDevs);
      if busDev.Some? && blockDevs != [] {
        var p := FindDevice();
        if p.Some? {
          outDevnode, majnum, minnum := devnode, p.value.major, p.value.minor;
          accepted := true;
          return true;
        }
        blockDevs := [];
      }
      return false;
    }

    method FindDevice() returns (r: Option<Dev>)
      requires forall d :: d in blockDevs ==> d.action == "add" && d.subsystem == "block"
      ensures r == FindBlock(blockDevs, devnode)
    {
      var i := 0;
      while i < |blockDevs|
        invariant 0 <= i <= |blockDevs|
        invariant FindBlock(blockDevs, devnode) == FindBlock(blockDevs[i..], devnode)
      {
        assert blockDevs[i] in blockDevs && blockDevs[i..][1..] == blockDevs[i + 1..];
        if blockDevs[i].devnode == devnode { return Some(blockDevs[i]); }
        i := i + 1;
      }
      return None;
    }
  }

  // ----- waiting for both sources

  /** What ends one round of receiving: nothing more for now, or an error. */
  datatype End = Again | Error(errno: int)

  datatype Batch = Batch(devs: seq<Dev>, end: End)

  /** One return of poll(): the sysfs result, if readable, and the udev events, if any. */
  datatype Wake = Wake(sysfs: Option<int>, udev: Option<Batch>)

  datatype Item = Event(dev: Dev) | Failure(errno: int)

  datatype WaitResult = Waiting | Returned(r: int, mapped: bool)

  /** The kernel result, wherever it comes in the sequence of wake-ups. */
  function SysfsResult(ws: seq<Wake>): Option<int> {
    if ws == [] then None
    else if ws[0].sysfs.Some? then ws[0].sysfs else SysfsResult(ws[1..])
  }

  function DevItems(ds: seq<Dev>): seq<Item> {
    seq(|ds|, i requires 0 <= i < |ds| => Event(ds[i]))
  }

  function BatchItems(b: Batch): seq<Item> {
    DevItems(b.devs) + if b.end.Error? then [Failure(b.end.errno)] else []
  }

  /** The udev stream, whatever the wake-ups it is spread over. */
  function Items(ws: seq<Wake>): seq<Item> {
    if ws == [] then []
    else (if ws[0].udev.Some? then BatchItems(ws[0].udev.value) else []) + Items(ws[1..])
  }

  /** Each wake-up adds the devices it received, in order, and then the error that ended the
      round, if one did; whether the kernel result came with it does not matter. */
  lemma {:induction false} ItemsArrive(ws: seq<Wake>, w: Wake)
    ensures Items([]) == [] && Items(ws) <= Items(ws + [w])
    ensures
      var more := Items(ws + [w])[|Items(ws)|..];
      match w.udev
      case None => more == []
      case Some(Batch(devs, end)) =>
        && |more| == |devs| + (if end == Again then 0 else 1)
        && (forall i :: 0 <= i < |devs| ==> more[i] == Event(devs[i]))
        && (end.Error? ==> more[|devs|] == Failure(end.errno))
    decreases |ws|
  {
    if ws == [] {
      assert ws + [w] == [w] && [w][1..] == [];
    } else {
      assert (ws + [w])[0] == ws[0] && (ws + [w])[1..] == ws[1..] + [w];
      ItemsArrive(ws[1..], w);
    }
  }

  /** The outcome of the udev stream after the events `h`: success at the event that
      completes the pair, or the first error. */
  ghost function UdevResult(spec: Spec, items: seq<Item>, h: seq<Dev>): Option<int>
    decreases |items|
  {
    if items == [] then None
    else match items[0]
      case Failure(e) => Some(-e)
      case Event(d) => if Complete(spec, h + [d]) then Some(0) else UdevResult(spec, items[1..], h + [d])
  }

  /** A kernel error decides alone; otherwise both have to report. */
  function Combine(sysfs: Option<int>, udev: Option<int>): WaitResult {
    if sysfs.None? then Waiting
    else if sysfs.value < 0 then Returned(sysfs.value, false)
    else if udev.None? then Waiting
    else Returned(udev.value, true)
  }

  predicate WakesOk(ws: seq<Wake>) {
    && (forall w :: w in ws && w.sysfs.Some? ==> w.sysfs.value <= 0)
    && (forall w :: w in ws && w.udev.Some? && w.udev.value.end.Error? ==> w.udev.value.end.errno > 0)
  }

  /** Success is reported at the first event that completes the pair. */
  lemma {:induction false} UdevResultMeaning(spec: Spec, ds: seq<Dev>, rest: seq<Item>, h: seq<Dev>)
    requires !Complete(spec, h)
    ensures Complete(spec, h + ds) ==> UdevResult(spec, DevItems(ds) + rest, h) == Some(0)
    ensures !Complete(spec, h + ds) ==> UdevResult(spec, DevItems(ds) + rest, h) == UdevResult(spec, rest, h + ds)
    decreases |ds|
  {
    var items := DevItems(ds) + rest;
    if ds == [] {
      assert items == rest && h + ds == h;
    } else {
      assert items[0] == Event(ds[0]) && items[1..] == DevItems(ds[1..]) + rest;
      assert h + ds == (h + [ds[0]]) + ds[1..];
      if Complete(spec, h + [ds[0]]) {
        CompleteStays(spec, h + [ds[0]], ds[1..]);
      } else {
        UdevResultMeaning(spec, ds[1..], rest, h + [ds[0]]);
      }
    }
  }

  /** The devices that arrive before udev reports an error. */
  function Leading(items: seq<Item>): seq<Dev> {
    if items == [] || items[0].Failure? then [] else [items[0].dev] + Leading(items[1..])
  }

  /** The error that udev reports first, if it reports one. */
  function FirstErrno(items: seq<Item>): Option<int> {
    if items == [] then None else if items[0].Failure? then Some(items[0].errno) else FirstErrno(items[1..])
  }

  /** The udev stream succeeds exactly if the devices before its first error complete the
      pair, and otherwise ends with that error. */
  lemma {:induction false} UdevDecides(spec: Spec, items: seq<Item>, h: seq<Dev>)
    requires !Complete(spec, h)
    ensures UdevResult(spec, items, h)
         == if Complete(spec, h + Leading(items)) then Some(0)
            else if FirstErrno(items).Some? then Some(-FirstErrno(items).value) else None
    decreases |items|
  {
    if items == [] || items[0].Failure? {
      assert h + Leading(items) == h;
    } else {
      var d := items[0].dev;
      assert h + Leading(items) == (h + [d]) + Leading(items[1..]);
      if Complete(spec, h + [d]) {
        CompleteStays(spec, h + [d], Leading(items[1..]));
      } else {
        UdevDecides(spec, items[1..], h + [d]);
      }
    }
  }

  /** The kernel reports with wake-up `i`. */
  predicate KernelReports(ws: seq<Wake>, i: int) {
    0 <= i < |ws| && ws[i].sysfs.Some? && forall k :: 0 <= k < i ==> ws[k].sysfs.None?
  }

  lemma {:induction false} SysfsMeaning(ws: seq<Wake>) returns (i: int)
    ensures SysfsResult(ws).Some? ==> KernelReports(ws, i) && ws[i].sysfs == SysfsResult(ws)
    ensures SysfsResult(ws).None? ==> forall k :: 0 <= k < |ws| ==> ws[k].sysfs.None?
  {
    i := 0;
    if ws != [] && ws[0].sysfs.None? {
      var k := SysfsMeaning(ws[1..]);
      i := k + 1;
    }
  }

  /** What a result says about the wake-ups.  Not mapped: the kernel reported this error.
      Mapped: the kernel reported success, and the devices completed the pair or udev failed
      with this error before they did.  Still waiting: the kernel has not reported, or it
      reported success and udev has decided nothing. */
  ghost predicate Says(spec: Spec, ws: seq<Wake>, result: WaitResult) {
    var items := Items(ws);
    match result
    case Returned(r, false) => r < 0 && exists i :: KernelReports(ws, i) && ws[i].sysfs == Some(r)
    case Returned(r, true) =>
      && (exists i :: KernelReports(ws, i) && ws[i].sysfs == Some(0))
      && if Complete(spec, Leading(items)) then r == 0 else FirstErrno(items).Some? && r == -FirstErrno(items).value
    case Waiting =>
      || (forall k :: 0 <= k < |ws| ==> ws[k].sysfs.None?)
      || ((exists i :: KernelReports(ws, i) && ws[i].sysfs == Some(0))
          && !Complete(spec, Leading(items)) && FirstErrno(items).None?)
  }

  lemma CombineSays(spec: Spec, ws: seq<Wake>)
    requires WakesOk(ws)
    ensures Says(spec, ws, Combine(SysfsResult(ws), UdevResult(spec, Items(ws), [])))
  {
    hide UdevResult, Items, SysfsResult, Leading, FirstErrno;
    var i := SysfsMeaning(ws);
    NeverComplete(spec);
    UdevDecides(spec, Items(ws), []);
    assert [] + Leading(Items(ws)) == Leading(Items(ws));
    if SysfsResult(ws).Some? { assert ws[i] in ws; }
  }

  lemma NeverComplete(spec: Spec)
    ensures !Complete(spec, [])
  {
  }

  /** Feeds one batch to the handler, which is not called again once it has accepted. */
  method DrainBatch(handler: MapHandler, batch: Batch, ghost rest: seq<Item>) returns (udev: Option<int>)
    requires handler.Valid() && !handler.accepted && (batch.end.Error? ==> batch.end.errno > 0)
    modifies handler
    ensures handler.Valid() && (handler.accepted <==> udev == Some(0))
    ensures UdevResult(handler.spec, BatchItems(batch) + rest, old(handler.history))
         == if udev.Some? then udev else UdevResult(handler.spec, rest, handler.history)
  {
    hide Complete, Known, UdevResult, DevItems, BatchItems;
    ghost var spec, h := handler.spec, handler.history;
    ghost var tail := (if batch.end.Error? then [Failure(batch.end.errno)] else []) + rest;
    BatchSplit(batch, rest);
    var i := 0;
    while i < |batch.devs|
      invariant 0 <= i <= |batch.devs| && handler.Valid() && !handler.accepted
      invariant handler.history == h + batch.devs[..i]
      invariant UdevResult(spec, DevItems(batch.devs) + tail, h) == UdevResult(spec,
        DevItems(batch.devs[i..]) + tail, handler.history)
    {
      NextEvent(spec, batch.devs[i..], tail, handler.history);
      assert batch.devs[i..][1..] == batch.devs[i + 1..];
      var done := handler.Handle(batch.devs[i]);
      if done { return Some(0); }
      i := i + 1;
    }
    BatchEnd(spec, batch.devs[i..], batch.end, rest, handler.history);
    if batch.end.Error? { return Some(-batch.end.errno); }
    return None;
  }

  lemma BatchSplit(b: Batch, rest: seq<Item>)
    ensures BatchItems(b) + rest == DevItems(b.devs) + ((if b.end.Error? then [Failure(b.end.errno)] else []) + rest)
  {
  }

  lemma NextEvent(spec: Spec, ds: seq<Dev>, tail: seq<Item>, h: seq<Dev>)
    requires ds != []
    ensures UdevResult(spec, DevItems(ds) + tail, h)
         == if Complete(spec, h + [ds[0]]) then Some(0) else UdevResult(spec, DevItems(ds[1..]) + tail, h + [ds[0]])
  {
    hide Complete;
    var items := DevItems(ds) + tail;
    assert items[0] == Event(ds[0]) && items[1..] == DevItems(ds[1..]) + tail;
  }

  lemma BatchEnd(spec: Spec, ds: seq<Dev>, end: End, rest: seq<Item>, h: seq<Dev>)
    requires ds == []
    ensures
      var tail := (if end.Error? then [Failure(end.errno)] else []) + rest;
      UdevResult(spec, DevItems(ds) + tail, h) == if end.Error? then Some(-end.errno) else UdevResult(spec, rest, h)
  {
    var tail := (if end.Error? then [Failure(end.errno)] else []) + rest;
    assert DevItems(ds) + tail == tail;
    assert !end.Error? ==> tail == rest;
  }

  /** Waits until the outcome is decided or the wake-ups run out.  The outcome depends on
      the kernel result and on the udev stream only, not on how the two interleave. */
  method WaitForMapping(handler: MapHandler, wakes: seq<Wake>) returns (result: WaitResult)
    requires handler.Valid() && !handler.accepted && handler.history == [] && WakesOk(wakes)
    modifies handler
    ensures handler.Valid()
    ensures result == Combine(SysfsResult(wakes), UdevResult(handler.spec, Items(wakes), []))
    ensures result == Returned(0, true) ==> handler.accepted
    ensures Says(handler.spec, wakes, result)
  {
    hide Complete, BatchItems, UdevResult, Says;
    CombineSays(handler.spec, wakes);
    ghost var spec := handler.spec;
    var sysfsR: Option<int>, udevR: Option<int> := None, None;
    var i := 0;
    while i < |wakes|
      invariant 0 <= i <= |wakes| && handler.Valid()
      invariant handler.accepted <==> udevR == Some(0)
      invariant sysfsR.None? || udevR.None?
      invariant sysfsR.Some? ==> sysfsR.value == 0
      invariant SysfsResult(wakes) == if sysfsR.Some? then sysfsR else SysfsResult(wakes[i..])
      invariant UdevResult(spec, Items(wakes), []) ==
        if udevR.Some? then udevR else UdevResult(spec, Items(wakes[i..]), handler.history)
    {
      var w := wakes[i];
      assert w in wakes && wakes[i..][0] == w && wakes[i..][1..] == wakes[i + 1..];
      if sysfsR.None? && w.sysfs.Some? {
        sysfsR := w.sysfs;
        if sysfsR.value < 0 { return Returned(sysfsR.value, false); }
        if udevR.Some? { return Returned(udevR.value, true); }
      }
      ghost var rest := Items(wakes[i + 1..]);
      if udevR.None? && w.udev.Some? {
        udevR := DrainBatch(handler, w.udev.value, rest);
        if udevR.Some? && sysfsR.Some? { return Returned(udevR.value, true); }
      } else if udevR.None? {
        assert Items(wakes[i..]) == rest;
      }
      i := i + 1;
    }
    NothingLeft(spec, wakes[i..], handler.history);
    return Waiting;
  }

  lemma NothingLeft(spec: Spec, ws: seq<Wake>, h: seq<Dev>)
    requires ws == []
    ensures SysfsResult(ws) == None && UdevResult(spec, Items(ws), h) == None
  {
  }
}
