/** Whole runs of a client: any sequence of writes, truncates, reads and flushes. */
module Sessions {
  import opened Wrappers
  import opened Rados
  import opened OsdRuns
  import opened PoolIO
  import opened Extents
  import opened StriperState
  import opened SimpleStriper
  import opened Leftovers

  datatype Call =
    | Put(data: seq<byte>, off: nat)
    | Cut(n: nat)
    | Get(len: nat, off: nat)
    | Sync

  datatype Reply = Reply(rc: int, data: seq<byte>)

  /** What a call did behind the scenes: the number of states the pool had been in when it
      returned, the completions it queued, and those a flush waited for and reported on. */
  datatype Entry = Entry(mark: nat, added: seq<Completion>, report: Option<seq<Completion>>)

  // ----- the same calls on a plain sequence of bytes

  /** A write starts inside the file and has at most 128 MiB, a truncate does not grow the
      file, and a read stays inside it. */
  predicate Inside(flat: seq<byte>, c: Call) {
    match c
    case Put(data, off) => off <= |flat| && |data| <= MIN_GROWTH
    case Cut(n) => n <= |flat|
    case Get(len, off) => off + len <= |flat|
    case Sync => true
  }

  function Play(flat: seq<byte>, c: Call): seq<byte>
    requires Inside(flat, c)
  {
    match c
    case Put(data, off) => FlatWrite(flat, off, data)
    case Cut(n) => flat[..n]
    case Get(_, _) => flat
    case Sync => flat
  }

  predicate AllInside(flat: seq<byte>, calls: seq<Call>)
    decreases |calls|, 0
  {
    calls == []
    || (AllInside(flat, calls[..|calls| - 1]) && Inside(PlayAll(flat, calls[..|calls| - 1]), calls[|calls| - 1]))
  }

  function PlayAll(flat: seq<byte>, calls: seq<Call>): seq<byte>
    requires AllInside(flat, calls)
    decreases |calls|, 1
  {
    if calls == [] then flat else Play(PlayAll(flat, calls[..|calls| - 1]), calls[|calls| - 1])
  }

  lemma PlaySnoc(flat: seq<byte>, calls: seq<Call>, i: nat)
    requires i < |calls| && AllInside(flat, calls[..i + 1])
    ensures AllInside(flat, calls[..i]) && Inside(PlayAll(flat, calls[..i]), calls[i])
    ensures PlayAll(flat, calls[..i + 1]) == Play(PlayAll(flat, calls[..i]), calls[i])
  {
    assert calls[..i + 1][..i] == calls[..i];
  }

  /** What the caller sees: a write was complete, a truncate or a flush returned 0. */
  predicate Worked(c: Call, r: Reply) {
    (c.Put? ==> r.rc == |c.data|) && (c.Cut? || c.Sync? ==> r.rc == 0)
  }

  /** A read delivered its slice of the content. */
  predicate ReadRight(flat: seq<byte>, c: Call, r: Reply) {
    c.Get? && c.off + c.len <= |flat| && r.rc >= 0 ==> r.rc == c.len && r.data == flat[c.off..c.off + c.len]
  }

  // ----- reports

  function Reported(e: Entry): seq<Completion> {
    if e.report.Some? then e.report.value else []
  }

  function AllAdded(log: seq<Entry>): seq<Completion> {
    if log == [] then [] else AllAdded(log[..|log| - 1]) + log[|log| - 1].added
  }

  function AllReported(log: seq<Entry>): seq<Completion> {
    if log == [] then [] else AllReported(log[..|log| - 1]) + Reported(log[|log| - 1])
  }

  /** A flush that reports returns the first failure, in the order of submission, among the
      requests it reports on; a flush that returns 0 reports. */
  ghost predicate ReportRight(h: seq<Osd>, c: Call, r: Reply, e: Entry) {
    && 0 < e.mark <= |h|
    && (c.Sync? && r.rc == 0 ==> e.report.Some?)
    && (e.report.Some? ==>
          && c.Sync? && Ordered(e.report.value)
          && (forall i :: 0 <= i < |e.report.value| ==> e.report.value[i].id in h[e.mark - 1].results)
          && r.rc == FirstFailure(e.report.value, h[e.mark - 1].results))
  }

  lemma ReportStays(h: seq<Osd>, h': seq<Osd>, c: Call, r: Reply, e: Entry)
    requires ReportRight(h, c, r, e) && h <= h'
    ensures ReportRight(h', c, r, e)
  {
    hide Ordered, FirstFailure;
    assert h'[e.mark - 1] == h[e.mark - 1];
  }

  lemma LedgerSnoc(first: seq<Completion>, log: seq<Entry>, e: Entry, was: seq<Completion>, now: seq<Completion>)
    requires first + AllAdded(log) == AllReported(log) + was && was + e.added == Reported(e) + now
    ensures first + AllAdded(log + [e]) == AllReported(log + [e]) + now
  {
    assert (log + [e])[..|log|] == log;
    Balanced(first, AllAdded(log), AllReported(log), was, e.added, Reported(e), now);
  }

  lemma Balanced<T>(first: seq<T>, a: seq<T>, r: seq<T>, was: seq<T>, x: seq<T>, y: seq<T>, now: seq<T>)
    requires first + a == r + was && was + x == y + now
    ensures first + (a + x) == (r + y) + now
  {
    Associative(first, a, x);
    Associative(r, was, x);
    Associative(r, y, now);
  }

  lemma Associative<T>(a: seq<T>, b: seq<T>, c: seq<T>)
    ensures (a + b) + c == a + (b + c)
  {
  }

  // ----- one call

  /** Nothing was in the way: a write was complete, a truncate returned 0, and a flush got as
      far as reporting. */
  predicate Smooth(c: Call, r: Reply, e: Entry) {
    (c.Put? || c.Cut? ==> Worked(c, r)) && (c.Sync? ==> e.report.Some?)
  }

  lemma Facts(f: Striper)
    requires f.Valid()
    ensures f.intact ==> |f.flat| == f.size
    ensures f.covered ==> EverSafe(f.pool.history)
    ensures f.pool.history != [] && f.pool.history[|f.pool.history| - 1] == f.pool.osd
  {
    hide EverSafe, EverRecoverable, AiosOk, Outstanding, MetaOk, Represents, Accounted, WellFormed;
  }

  method DoCall(f: Striper, c: Call) returns (r: Reply, ghost e: Entry)
    requires f.Valid()
    modifies f, f.pool
    ensures f.Valid() && old(f.pool.history) <= f.pool.history
    ensures e.mark == |f.pool.history| && old(f.issued) + e.added == Reported(e) + f.issued
    ensures e.report.Some? ==> f.issued == []
    ensures ReportRight(f.pool.history, c, r, e)
    ensures Worked(c, r) ==> f.trusted == old(f.trusted)
    ensures Worked(c, r) && old(f.intact) && Inside(old(f.flat), c) ==>
      f.intact && f.flat == Play(old(f.flat), c) && f.covered == old(f.covered)
    ensures old(f.intact) && f.pool.osd.clean ==> ReadRight(old(f.flat), c, r)
    ensures c.Sync? && Worked(c, r) && f.trusted ==> f.pool.osd.clean && (f.intact ==> Durable(f.pool.osd, f.flat))
    ensures f.blocklisted == old(f.blocklisted) && f.pool.faults >= old(f.pool.faults)
    ensures !f.blocklisted && f.pool.faults == old(f.pool.faults) ==> Smooth(c, r, e)
  {
    hide Striper.Valid, FlatWrite, RoundUp, Fits, Durable, FirstFailure, Ordered, Idle;
    if c.Sync? {
      ghost var waited, queued;
      var rc;
      rc, waited, queued := f.Flush();
      r := Reply(rc, []);
      e := Entry(|f.pool.history|, if waited then queued[|old(f.issued)|..] else f.issued[|old(f.issued)|..],
                 if waited then Some(queued) else None);
      Facts(f);
    } else {
      r := DoPlain(f, c);
      e := Entry(|f.pool.history|, f.issued[|old(f.issued)|..], None);
      Facts(f);
    }
  }

  /** A call other than a flush. */
  method DoPlain(f: Striper, c: Call) returns (r: Reply)
    requires f.Valid() && !c.Sync?
    modifies f, f.pool
    ensures f.Valid() && old(f.pool.history) <= f.pool.history
    ensures old(f.issued) <= f.issued
    ensures Worked(c, r) ==> f.trusted == old(f.trusted)
    ensures Worked(c, r) && old(f.intact) && Inside(old(f.flat), c) ==>
      f.intact && f.flat == Play(old(f.flat), c) && f.covered == old(f.covered)
    ensures old(f.intact) && f.pool.osd.clean ==> ReadRight(old(f.flat), c, r)
    ensures f.blocklisted == old(f.blocklisted) && f.pool.faults >= old(f.pool.faults)
    ensures !f.blocklisted && f.pool.faults == old(f.pool.faults) ==> Worked(c, r)
  {
    hide Striper.Valid, Extended, Settled, Beyond, Dangled, Prunes, Shrunk, Grown, MetaQueued, Queued, FlatWrite;
    hide RoundUp, Fits, ReadBytes, AllStored, Below;
    Facts(f);
    match c {
      case Put(data, off) =>
        if off <= f.size && |data| <= MIN_GROWTH { SequentialWritesFit(off, |data|, f.alloc, f.size); }
        var rc := f.Write(data, off);
        assert data[..|data|] == data;
        r := Reply(rc, []);
      case Cut(n) =>
        var rc := f.Truncate(n);
        r := Reply(rc, []);
      case Get(len, off) =>
        var rc, data := f.Read(len, off);
        r := Reply(rc, data);
    }
  }

  // ----- any number of calls

  ghost predicate AllWorked(calls: seq<Call>, replies: seq<Reply>) {
    |replies| <= |calls| && forall i :: 0 <= i < |replies| ==> Worked(calls[i], replies[i])
  }

  ghost predicate AllSmooth(calls: seq<Call>, replies: seq<Reply>, log: seq<Entry>) {
    |replies| == |log| <= |calls| && forall i :: 0 <= i < |log| ==> Smooth(calls[i], replies[i], log[i])
  }

  ghost predicate ReportsRight(h: seq<Osd>, calls: seq<Call>, replies: seq<Reply>, log: seq<Entry>) {
    && |log| == |replies| <= |calls|
    && forall i :: 0 <= i < |log| ==> ReportRight(h, calls[i], replies[i], log[i])
  }

  /** Every read among the first `n` calls delivered its slice of what the file held then. */
  ghost predicate ReadsRight(flat: seq<byte>, calls: seq<Call>, replies: seq<Reply>, n: nat) {
    n <= |replies| <= |calls| && forall i :: 0 <= i < n ==>
      AllInside(flat, calls[..i]) && ReadRight(PlayAll(flat, calls[..i]), calls[i], replies[i])
  }

  /** When the flush with number `j` returned, everything played so far was durable, and all
      reads before it had been right. */
  ghost predicate SyncRight(h: seq<Osd>, flat: seq<byte>, calls: seq<Call>, replies: seq<Reply>, log: seq<Entry>,
    j: nat)
    requires j < |log|
  {
    && j < |calls| && 0 < log[j].mark <= |h| && AllInside(flat, calls[..j + 1])
    && Durable(h[log[j].mark - 1], PlayAll(flat, calls[..j + 1])) && ReadsRight(flat, calls, replies, j)
  }

  ghost predicate SyncsRight(h: seq<Osd>, flat: seq<byte>, calls: seq<Call>, replies: seq<Reply>, log: seq<Entry>) {
    forall j :: 0 <= j < |log| && j < |calls| && calls[j].Sync? ==> SyncRight(h, flat, calls, replies, log, j)
  }

  lemma ReportsSnoc(h: seq<Osd>, h': seq<Osd>, calls: seq<Call>, replies: seq<Reply>, log: seq<Entry>, r: Reply,
    e: Entry)
    requires ReportsRight(h, calls, replies, log) && h <= h' && |log| < |calls|
    requires ReportRight(h', calls[|log|], r, e)
    ensures ReportsRight(h', calls, replies + [r], log + [e])
  {
    hide ReportRight;
    forall i | 0 <= i < |log| + 1 ensures ReportRight(h', calls[i], (replies + [r])[i], (log + [e])[i]) {
      if i < |log| { ReportStays(h, h', calls[i], replies[i], log[i]); }
    }
  }

  lemma ReadsSnoc(flat: seq<byte>, calls: seq<Call>, replies: seq<Reply>, n: nat, r: Reply)
    requires |replies| < |calls| && ReadsRight(flat, calls, replies, n)
    ensures ReadsRight(flat, calls, replies + [r], n)
    ensures n == |replies| && AllInside(flat, calls[..n]) && ReadRight(PlayAll(flat, calls[..n]), calls[n], r) ==>
      ReadsRight(flat, calls, replies + [r], n + 1)
  {
    hide AllInside, PlayAll, ReadRight;
  }

  lemma SyncsSnoc(h: seq<Osd>, h': seq<Osd>, flat: seq<byte>, calls: seq<Call>, replies: seq<Reply>, log: seq<Entry>,
    r: Reply, e: Entry)
    requires |log| == |replies| < |calls| && h <= h' && SyncsRight(h, flat, calls, replies, log)
    requires calls[|log|].Sync? ==> SyncRight(h', flat, calls, replies + [r], log + [e], |log|)
    ensures SyncsRight(h', flat, calls, replies + [r], log + [e])
  {
    hide AllInside, PlayAll, ReadRight, Durable, ReadsRight;
    var now, log' := replies + [r], log + [e];
    forall j | 0 <= j < |log'| && calls[j].Sync? ensures SyncRight(h', flat, calls, now, log', j) {
      if j < |log| {
        assert SyncRight(h, flat, calls, replies, log, j);
        ReadsSnoc(flat, calls, replies, j, r);
        assert h'[log[j].mark - 1] == h[log[j].mark - 1];
      }
    }
  }

  lemma WorkedSnoc(calls: seq<Call>, replies: seq<Reply>, r: Reply)
    requires |replies| < |calls|
    ensures AllWorked(calls, replies + [r]) <==> AllWorked(calls, replies) && Worked(calls[|replies|], r)
  {
    hide Worked;
    var now := replies + [r];
    assert now[|replies|] == r;
    assert forall i :: 0 <= i < |replies| ==> now[i] == replies[i];
  }

  lemma StillClean(f: Striper, s: Osd, h: seq<Osd>)
    requires f.Valid() && h <= f.pool.history && h != [] && h[|h| - 1] == s
    ensures f.pool.osd.clean ==> s.clean
  {
    hide Core, ContentOk, Accounted, WellFormed;
    if f.pool.osd.clean { assert f.pool.history[|h| - 1] == s; }
  }

  /** Where a run stands.  `good` says that every call so far worked and stayed inside the
      file: then the file is what the calls make of a plain sequence of bytes, the reads were
      right unless something has failed unnoticed since, and what each flush promised holds. */
  ghost predicate Stands(f: Striper, flat: seq<byte>, calls: seq<Call>, replies: seq<Reply>, log: seq<Entry>,
    trust: bool, cover: bool)
    reads f, f.pool
  {
    && |replies| <= |calls| && AllInside(flat, calls[..|replies|])
    && f.intact && f.flat == PlayAll(flat, calls[..|replies|]) && f.covered == cover && f.trusted == trust
    && (f.pool.osd.clean ==> ReadsRight(flat, calls, replies, |replies|))
    && (trust ==> SyncsRight(f.pool.history, flat, calls, replies, log))
  }

  lemma StandsStart(f: Striper, calls: seq<Call>)
    requires f.intact
    ensures Stands(f, f.flat, calls, [], [], f.trusted, f.covered)
  {
    assert calls[..0] == [];
  }

  lemma ReportsNone(h: seq<Osd>, calls: seq<Call>)
    ensures ReportsRight(h, calls, [], []) && AllAdded([]) == AllReported([]) == []
  {
  }

  /** One more call: from the state before it (`s` with history `h`) to the present. */
  lemma StandsNext(f: Striper, s: Osd, h: seq<Osd>, flat: seq<byte>, calls: seq<Call>, replies: seq<Reply>,
                   log: seq<Entry>, r: Reply, e: Entry, trust: bool, cover: bool)
    requires |log| == |replies| < |calls| && AllInside(flat, calls[..|replies|])
      && AllInside(flat, calls[..|replies| + 1])
    requires h <= f.pool.history && f.pool.history != [] && f.pool.history[|f.pool.history| - 1] == f.pool.osd
    requires f.pool.osd.clean ==> s.clean
    requires s.clean ==> ReadsRight(flat, calls, replies, |replies|)
    requires trust ==> SyncsRight(h, flat, calls, replies, log)
    requires f.intact && f.covered == cover && f.trusted == trust && f.flat == PlayAll(flat, calls[..|replies| + 1])
    requires f.pool.osd.clean ==> ReadRight(PlayAll(flat, calls[..|replies|]), calls[|replies|], r)
    requires calls[|replies|].Sync? && trust ==> f.pool.osd.clean && Durable(f.pool.osd, f.flat)
    requires e.mark == |f.pool.history|
    ensures Stands(f, flat, calls, replies + [r], log + [e], trust, cover)
  {
    hide AllInside, PlayAll, ReadRight, Durable, ReadsRight, SyncsRight;
    var n := |replies|;
    if f.pool.osd.clean { ReadsSnoc(flat, calls, replies, n, r); }
    if trust { SyncsSnoc(h, f.pool.history, flat, calls, replies, log, r, e); }
  }

  method Next(f: Striper, calls: seq<Call>, replies: seq<Reply>, ghost log: seq<Entry>,
              ghost flat: seq<byte>, ghost trust: bool, ghost cover: bool) returns (r: Reply, ghost e: Entry)
    requires f.Valid() && |log| == |replies| < |calls| && ReportsRight(f.pool.history, calls, replies, log)
    modifies f, f.pool
    ensures f.Valid() && old(f.pool.history) <= f.pool.history
    ensures ReportsRight(f.pool.history, calls, replies + [r], log + [e])
    ensures old(f.issued) + e.added == Reported(e) + f.issued
    ensures f.blocklisted == old(f.blocklisted) && f.pool.faults >= old(f.pool.faults)
    ensures !f.blocklisted && f.pool.faults == old(f.pool.faults) ==> Smooth(calls[|replies|], r, e)
    ensures old(Stands(f, flat, calls, replies, log, trust, cover)) ==>
      Worked(calls[|replies|], r) && AllInside(flat, calls[..|replies| + 1]) ==>
      Stands(f, flat, calls, replies + [r], log + [e], trust, cover)
  {
    hide AllInside, PlayAll, Play, Inside, ReadRight, Striper.Valid, ReadsRight, SyncsRight, Worked, ReportRight;
    hide ReportsRight, Durable, Reported, Smooth;
    var n := |replies|;
    ghost var s, h := f.pool.osd, f.pool.history;
    ghost var good := Stands(f, flat, calls, replies, log, trust, cover);
    Facts(f);
    r, e := DoCall(f, calls[n]);
    Facts(f);
    StillClean(f, s, h);
    ReportsSnoc(h, f.pool.history, calls, replies, log, r, e);
    if good && Worked(calls[n], r) && AllInside(flat, calls[..n + 1]) {
      PlaySnoc(flat, calls, n);
      StandsNext(f, s, h, flat, calls, replies, log, r, e, trust, cover);
    }
  }

  /** Any calls in any order.  Every request that was queued stands on exactly one report, in
      the order of submission, or is still queued.  If no submission is refused and no wait
      ends badly, every write is complete, every truncate succeeds and every flush reports.
      If all calls worked and stayed inside the
      file, the file holds what they make of a plain sequence of bytes, at every flush this
      was durable and all reads so far had been right, no dangling extent existed at any
      time, and the client can go on. */
  method Run(f: Striper, calls: seq<Call>) returns (replies: seq<Reply>, ghost log: seq<Entry>)
    requires f.Valid()
    modifies f, f.pool
    ensures f.Valid() && old(f.pool.history) <= f.pool.history && |replies| == |calls| == |log|
    ensures ReportsRight(f.pool.history, calls, replies, log)
    ensures old(f.issued) + AllAdded(log) == AllReported(log) + f.issued
    ensures !old(f.blocklisted) && f.pool.faults == old(f.pool.faults) ==> AllSmooth(calls, replies, log)
    ensures AllWorked(calls, replies) && old(f.intact) && AllInside(old(f.flat), calls) ==>
      && Stands(f, old(f.flat), calls, replies, log, old(f.trusted), old(f.covered))
      && (old(f.covered) ==> EverSafe(f.pool.history))
  {
    hide AllInside, PlayAll, Striper.Valid, ReadsRight, SyncsRight, AllWorked, ReportsRight, EverSafe, Stands;
    ghost var flat, trust, cover := f.flat, f.trusted, f.covered;
    replies, log := [], [];
    ReportsNone(f.pool.history, calls);
    if f.intact { StandsStart(f, calls); }
    while |replies| < |calls|
      invariant |log| == |replies| <= |calls| && f.Valid() && old(f.pool.history) <= f.pool.history
      invariant ReportsRight(f.pool.history, calls, replies, log)
      invariant old(f.issued) + AllAdded(log) == AllReported(log) + f.issued
      invariant f.blocklisted == old(f.blocklisted) && f.pool.faults >= old(f.pool.faults)
      invariant !f.blocklisted && f.pool.faults == old(f.pool.faults) ==> AllSmooth(calls, replies, log)
      invariant AllWorked(calls, replies) && old(f.intact) && AllInside(flat, calls[..|replies|]) ==>
        Stands(f, flat, calls, replies, log, trust, cover)
    {
      ghost var was, e := f.issued, Entry(0, [], None);
      var r;
      r, e := Next(f, calls, replies, log, flat, trust, cover);
      LedgerSnoc(old(f.issued), log, e, was, f.issued);
      WorkedSnoc(calls, replies, r);
      if AllInside(flat, calls[..|replies| + 1]) { PlaySnoc(flat, calls, |replies|); }
      replies, log := replies + [r], log + [e];
    }
    assert calls[..|calls|] == calls;
    Facts(f);
    if Stands(f, flat, calls, replies, log, trust, cover) { StandsSo(f, flat, calls, replies, log, trust, cover); }
  }

  /** A session: any calls, flushes among them, and a flush at the end.  If the caller saw no
      error, the file is durable, every read that returned was right, and the next session
      can follow. */
  method Session(f: Striper, calls: seq<Call>) returns (replies: seq<Reply>, rc: int, ghost log: seq<Entry>)
    requires f.Valid()
    modifies f, f.pool
    ensures f.Valid() && old(f.pool.history) <= f.pool.history && |replies| == |calls| == |log| - 1
    ensures old(f.issued) + AllAdded(log) == AllReported(log) + f.issued
    ensures log[|calls|].report.Some? ==>
      f.issued == [] && rc == FirstFailure(log[|calls|].report.value, f.pool.osd.results)
    ensures rc == 0 ==> log[|calls|].report.Some?
    ensures rc == 0 && AllWorked(calls, replies) && old(f.intact) && AllInside(old(f.flat), calls) ==>
      && f.intact && f.flat == PlayAll(old(f.flat), calls) && f.trusted == old(f.trusted) && f.covered == old(f.covered)
      && (f.trusted ==> Durable(f.pool.osd, f.flat) && ReadsRight(old(f.flat), calls, replies, |calls|))
      && (f.covered ==> EverSafe(f.pool.history))
  {
    hide AllInside, PlayAll, Striper.Valid, ReadsRight, SyncsRight, AllWorked, ReportsRight, EverSafe, Stands, Durable;
    hide FirstFailure, Ordered, AllAdded, AllReported, Reported, ReadRight;
    ghost var flat, trust, cover := f.flat, f.trusted, f.covered;
    replies, log := Run(f, calls);
    ghost var s, h, was := f.pool.osd, f.pool.history, f.issued;
    if Stands(f, flat, calls, replies, log, trust, cover) { StandsSo(f, flat, calls, replies, log, trust, cover); }
    Facts(f);
    var r;
    ghost var e;
    r, e := DoCall(f, Sync);
    Facts(f);
    StillClean(f, s, h);
    LedgerSnoc(old(f.issued), log, e, was, f.issued);
    rc, log := r.rc, log + [e];
  }

  lemma StandsSo(f: Striper, flat: seq<byte>, calls: seq<Call>, replies: seq<Reply>, log: seq<Entry>, trust: bool,
    cover: bool)
    requires Stands(f, flat, calls, replies, log, trust, cover) && |replies| == |calls|
    ensures AllInside(flat, calls) && f.intact && f.flat == PlayAll(flat, calls) && f.trusted == trust
      && f.covered == cover
    ensures f.pool.osd.clean ==> ReadsRight(flat, calls, replies, |calls|)
  {
    hide AllInside, PlayAll, ReadsRight, SyncsRight;
    assert calls[..|replies|] == calls;
  }

  // ----- a growing truncate, step by step from an empty file

  /** Fills 65 objects, cuts the file down to one byte, which frees nothing because 128 MiB
      are not more than one growth step, and then grows it by truncating.  If every call
      succeeds, an object is left dangling. */
  method GrowByTruncating(f: Striper) returns (ok: bool)
    requires f.Valid() && f.size == 0 && f.alloc == 0 && f.flat == [] && f.intact && f.trusted
    modifies f, f.pool
    ensures ok ==> Dangled(f.pool.history)
  {
    hide Core, ContentOk, Accounted, Bounded, MetaQueued, Queued, FlatWrite, Fits, Durable, Dangled, FirstFailure,
      Ordered, Idle, Beyond, Striper.Valid;
    ok := false;
    var half, one := Zeros(MIN_GROWTH), Zeros(OBJECT_SIZE);
    RoundUps();
    var rc := f.Write(half, 0);
    if rc < |half| { return; }
    rc := f.Write(one, MIN_GROWTH);
    if rc < |one| { return; }
    rc := f.Write(half, MIN_GROWTH + OBJECT_SIZE);
    if rc < |half| { return; }
    assert f.size == 65 * OBJECT_SIZE && f.alloc == 65 * OBJECT_SIZE;
    ghost var waited, queued;
    rc, waited, queued := f.Flush();
    if rc < 0 { return; }
    Facts(f);
    DurableStays(f.pool.osd, f.flat, 64);
    ghost var s, n := f.pool.osd, |f.pool.history|;
    rc := f.Truncate(1);
    if rc < 0 { return; }
    assert f.alloc == 65 * OBJECT_SIZE;
    SparedBeyond(s, n, f.pool.osd, f.pool.history, 65 * OBJECT_SIZE, 1, 64, Growth(1));
    rc := f.Truncate(65 * OBJECT_SIZE + 1);
    ok := rc == 0;
  }

  function Zeros(n: nat): (r: seq<byte>)
    ensures |r| == n
  {
    seq(n, _ => 0)
  }

  lemma RoundUps()
    ensures RoundUp(0) == 0 && RoundUp(1) == OBJECT_SIZE
    ensures RoundUp(MIN_GROWTH) == MIN_GROWTH && RoundUp(MIN_GROWTH + OBJECT_SIZE) == MIN_GROWTH + OBJECT_SIZE
  {
  }

  lemma DurableStays(s: Osd, flat: seq<byte>, k: nat)
    requires Durable(s, flat) && Idle(s) && k * OBJECT_SIZE < |flat|
    ensures Stays(s, k)
  {
    Locate(k, 0);
    assert ByteAt(s, k * OBJECT_SIZE) == Some(flat[k * OBJECT_SIZE]);
  }

  lemma SparedBeyond(s: Osd, from: nat, t: Osd, h: seq<Osd>, alloc: nat, size: nat, k: nat, a: nat)
    requires Prunes(s, from, t, h, alloc, size) && Stays(s, k) && k != 0 && (k + 1) * OBJECT_SIZE > a
    requires !(FirstPruned(Shrunk(alloc, size)) <= k < alloc / OBJECT_SIZE)
    ensures Beyond(t, a)
  {
  }

  // ----- that these calls can all succeed

  /** Each request is sent and then served without a fault. */
  function Served(reqs: seq<(nat, Op)>): seq<Leftovers.Event> {
    if reqs == [] then [] else [Sends(reqs[0].0, reqs[0].1), Serves(reqs[0].0, 0)] + Served(reqs[1..])
  }

  /** Full writes of the objects in [lo, hi). */
  function Fills(lo: nat, hi: nat): seq<(nat, Op)>
    requires lo <= hi
    decreases hi - lo
  {
    if lo == hi then [] else [(lo, Op.Write(0, Zeros(OBJECT_SIZE)))] + Fills(lo + 1, hi)
  }

  function Update(alloc: Option<nat>, size: Option<nat>, version: nat): (nat, Op) {
    (0, SetMeta(alloc, size, version))
  }

  /** The requests that `GrowByTruncating` sends if nothing fails: three writes, each with its
      growth step, the write-back of the size, and two truncates. */
  function GrowthRequests(): seq<(nat, Op)> {
    [Update(Some(Growth(0)), None, 1)] + Fills(0, 32)
    + [Update(Some(Growth(32 * OBJECT_SIZE)), None, 2)] + Fills(32, 33)
    + [Update(Some(Growth(33 * OBJECT_SIZE)), None, 3)] + Fills(33, 65)
    + [Update(None, Some(65 * OBJECT_SIZE), 4), Update(None, Some(1), 5)]
    + [Update(Some(Growth(1)), Some(65 * OBJECT_SIZE + 1), 6)]
  }

  ghost predicate Plain(reqs: seq<(nat, Op)>) {
    forall i :: 0 <= i < |reqs| ==> !reqs[i].1.Remove? && (reqs[i].1.SetMeta? ==> reqs[i].0 == 0)
  }

  /** A list of writes and updates can be served one by one; what is stored stays, and what is
      written is stored. */
  lemma {:induction false} ServedRuns(s: Osd, reqs: seq<(nat, Op)>)
    requires Idle(s) && Plain(reqs)
    ensures CanRun(s, map[], Served(reqs))
    ensures
      var t := RealEnd(s, map[], Served(reqs));
      && Idle(t)
      && (forall k :: k in s.objects || (exists i :: 0 <= i < |reqs| && reqs[i].0 == k && reqs[i].1.Write?) ==>
        k in t.objects)
      && (reqs != [] && reqs[|reqs| - 1].1.SetMeta? && reqs[|reqs| - 1].1.alloc.Some?
          ==> t.meta.alloc == reqs[|reqs| - 1].1.alloc.value)
    decreases |reqs|
  {
    hide Serve, Submit, Idle, CanRun, RealEnd;
    if reqs == [] {
      NoEvents(s);
    } else {
      var k, op, rest := reqs[0].0, reqs[0].1, Served(reqs[1..]);
      OneServed(s, k, op);
      ServedRuns(Serve(Submit(s, k, op), k, 0), reqs[1..]);
      TwoEvents(s, k, op, rest);
      NoEvents(Serve(Submit(s, k, op), k, 0));
      assert |reqs| == 1 ==> reqs[1..] == [];
      assert forall i :: 0 < i < |reqs| ==> reqs[i] == reqs[1..][i - 1];
    }
  }

  lemma NoEvents(s: Osd)
    ensures CanRun(s, map[], []) && RealEnd(s, map[], []) == s
  {
  }

  lemma OneServed(s: Osd, k: nat, op: Op)
    requires Idle(s) && !op.Remove?
    ensures CanServe(Submit(s, k, op), k, 0)
    ensures
      var t := Serve(Submit(s, k, op), k, 0);
      && Idle(t) && (forall l :: l in s.objects || (op.Write? && l == k) ==> l in t.objects)
      && (op.SetMeta? && op.alloc.Some? ==> t.meta.alloc == op.alloc.value)
  {
    hide WriteAt;
    var u := Submit(s, k, op);
    assert Queue(s, k) == [] && Queue(u, k) == [Request(s.next, op)];
    forall l ensures Queue(Serve(u, k, 0), l) == [] {
      ServeQueue(u, k, 0, l);
      SubmitQueue(s, k, op, l);
    }
  }

  lemma TwoEvents(s: Osd, k: nat, op: Op, rest: seq<Leftovers.Event>)
    requires (op.SetMeta? ==> k == 0) && CanServe(Submit(s, k, op), k, 0)
    requires CanRun(Serve(Submit(s, k, op), k, 0), map[], rest)
    ensures
      var es := [Sends(k, op), Serves(k, 0)] + rest;
      CanRun(s, map[], es) && RealEnd(s, map[], es) == RealEnd(Serve(Submit(s, k, op), k, 0), map[], rest)
  {
    hide Serve, Submit;
    var es, one := [Sends(k, op), Serves(k, 0)] + rest, [Serves(k, 0)] + rest;
    assert es[1..] == one && one[1..] == rest;
    assert LeftAfter(map[], Serves(k, 0)) == map[];
    assert CanRun(Submit(s, k, op), map[], one);
  }

  lemma {:induction false} FillsAre(lo: nat, hi: nat)
    requires lo <= hi
    ensures |Fills(lo, hi)| == hi - lo && Plain(Fills(lo, hi))
    ensures forall i :: 0 <= i < hi - lo ==> Fills(lo, hi)[i].0 == lo + i && Fills(lo, hi)[i].1.Write?
    decreases hi - lo
  {
    if lo < hi { FillsAre(lo + 1, hi); }
  }

  /** From a created file these requests can be served one by one, and they end in a dangling
      extent. */
  lemma GrowthDangles()
    ensures CanRun(Created(), map[], Served(GrowthRequests()))
    ensures !NoDangling(RealEnd(Created(), map[], Served(GrowthRequests())))
  {
    hide Served, Fills, NoDangling, CanRun, RealEnd;
    var reqs := GrowthRequests();
    FillsAre(0, 32);
    FillsAre(32, 33);
    FillsAre(33, 65);
    RoundUps();
    assert |reqs| == 71 && reqs[67].0 == 64 && reqs[67].1.Write?;
    assert Plain(reqs);
    ServedRuns(Created(), reqs);
    StoredDangles(RealEnd(Created(), map[], Served(reqs)), 64);
  }

  lemma StoredDangles(s: Osd, k: nat)
    requires k in s.objects && k != 0 && k >= s.meta.alloc / OBJECT_SIZE
    ensures !NoDangling(s)
  {
    assert Occupied(s, k);
  }
}
