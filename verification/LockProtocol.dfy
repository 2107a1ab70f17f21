/** The exclusive lock of a striped file: any number of clients, leases that expire at any
    time, recovery by blocklisting, and renewal.

    One action is one operation on the lock object, one client-local step, or the arrival of
    one access at the OSDs.  A client that crashes simply takes no further action; what it
    has in flight may still arrive.  Blocklisting is permanent, an operation of a blocklisted
    client is refused when it arrives, and clients have distinct addresses, so a client
    stands for its address.
 */
module LockProtocol {
  import opened Wrappers

  type Client = nat

  /** Where a client is inside lock(), recover_lock() or after them. */
  datatype Phase =
    | Idle
    | Trying                  // about to run the compound fast-path operation
    | Recovering              // about to take the lock of an owner that did not clean up
    | Fetching                // has the lock, about to read the last owner
    | Fencing(last: Client)   // about to blocklist the last owner
    | Owning                  // about to write itself as the owner
    | Held(session: nat)      // past a successful lock()
    | Lost(session: nat)      // renewal failed: refuses every further call

  datatype Access = Access(client: Client, session: nat)

  /** `holder` is the holder of the leased lock and `excl` the owner attribute.  `owners`
      lists the clients that got past lock(), in order, `flight` the accesses to the file
      that were sent and have not arrived, and `log` those that the OSDs accepted. */
  datatype State = State(
    fence: bool,
    holder: Option<Client>,
    excl: Option<Client>,
    blocklist: set<Client>,
    phases: map<Client, Phase>,
    owners: seq<Client>,
    flight: seq<Access>,
    log: seq<Access>)

  datatype Action =
    | Call(c: Client)
    | FastPath(c: Client)
    | Recover(c: Client)
    | Fetch(c: Client)
    | Fence(c: Client)
    | Own(c: Client)
    | Fault(c: Client)     // an operation of lock() failed for another reason
    | Expire               // the lease of the current holder runs out
    | Renew(c: Client)
    | RenewFails(c: Client) // a renewal fails although the lease is held
    | Unlock(c: Client)    // flush() has waited for everything the client sent
    | Send(c: Client)      // a read or write of the file leaves the client
    | Arrive(i: nat)       // access number `i` in flight reaches the OSDs

  function Init(fence: bool): State {
    State(fence, None, None, {}, map[], [], [], [])
  }

  function Phased(s: State, c: Client): Phase {
    if c in s.phases then s.phases[c] else Idle
  }

  function Goto(s: State, c: Client, p: Phase): State {
    s.(phases := s.phases[c := p])
  }

  /** Client `c` gets past lock(). */
  function Enter(s: State, c: Client): State {
    Goto(s, c, Held(|s.owners|)).(excl := Some(c), owners := s.owners + [c])
  }

  predicate Pending(s: State, c: Client) {
    exists i :: 0 <= i < |s.flight| && s.flight[i].client == c
  }

  function Step(s: State, a: Action): State {
    match a
    case Call(c) =>
      if Phased(s, c) == Idle then Goto(s, c, Trying) else s
    case FastPath(c) =>
      if Phased(s, c) != Trying then s
      else if c in s.blocklist then Goto(s, c, Idle)
      else if s.holder == Some(c) then Goto(s, c, Idle)            // already locked by itself
      else if s.holder.Some? then s                                // busy: sleep and try again
      else if s.excl.Some? then Goto(s, c, Recovering)             // the compare fails: nothing is applied
      else Enter(s, c).(holder := Some(c))
    case Recover(c) =>
      if Phased(s, c) != Recovering then s
      else if c in s.blocklist || s.holder == Some(c) then Goto(s, c, Idle)
      else if s.holder.Some? then Goto(s, c, Trying)
      else Goto(s, c, Fetching).(holder := Some(c))
    case Fetch(c) =>
      if Phased(s, c) != Fetching then s
      else if c in s.blocklist then Goto(s, c, Idle)
      else if s.excl.None? || !s.fence then Goto(s, c, Owning)
      else Goto(s, c, Fencing(s.excl.value))
    case Fence(c) =>
      if !Phased(s, c).Fencing? then s
      else Goto(s, c, Owning).(blocklist := s.blocklist + {Phased(s, c).last})
    case Own(c) =>
      if Phased(s, c) != Owning then s
      else if c in s.blocklist then Goto(s, c, Idle)
      else Enter(s, c)                                             // unconditional: the lease is not checked
    case Fault(c) =>
      if Phased(s, c).Held? || Phased(s, c).Lost? then s else Goto(s, c, Idle)
    case Expire =>
      s.(holder := None)
    case Renew(c) =>
      if Phased(s, c).Held? && (s.holder != Some(c) || c in s.blocklist)
      then Goto(s, c, Lost(Phased(s, c).session))
      else s
    case RenewFails(c) =>
      if Phased(s, c).Held? then Goto(s, c, Lost(Phased(s, c).session)) else s
    case Unlock(c) =>
      if Phased(s, c).Held? && c !in s.blocklist && s.excl == Some(c) && s.holder == Some(c) && !Pending(s, c)
      then Goto(s, c, Idle).(excl := None, holder := None)
      else s
    case Send(c) =>
      if Phased(s, c).Held? then s.(flight := s.flight + [Access(c, Phased(s, c).session)]) else s
    case Arrive(i) =>
      if i >= |s.flight| then s
      else
        var rest := s.flight[..i] + s.flight[i + 1..];
        if s.flight[i].client in s.blocklist then s.(flight := rest)  // refused
        else s.(flight := rest, log := s.log + [s.flight[i]])
  }

  function Exec(s: State, run: seq<Action>): State
    decreases |run|
  {
    if run == [] then s else Exec(Step(s, run[0]), run[1..])
  }

  /** A client still holds its lease when it writes itself as the owner, that is, recovery
      finishes within the lease. */
  predicate LeaseKept(s: State, a: Action) {
    a.Own? && Phased(s, a.c) == Owning ==> s.holder == Some(a.c)
  }

  predicate LeasesKept(s: State, run: seq<Action>)
    decreases |run|
  {
    run == [] || (LeaseKept(s, run[0]) && LeasesKept(Step(s, run[0]), run[1..]))
  }

  // ----- what the protocol is for

  /** Past lock() and not fenced off. */
  predicate Active(s: State, c: Client) {
    Phased(s, c).Held? && c !in s.blocklist
  }

  /** At most one client is active, the owner attribute names it, and whatever is in flight
      and will be accepted belongs to the newest session. */
  ghost predicate Exclusive(s: State) {
    && (forall c: Client, d: Client :: Active(s, c) && Active(s, d) ==> c == d)
    && (forall c: Client :: Active(s, c) ==> s.excl == Some(c))
    && (forall i :: 0 <= i < |s.flight| && s.flight[i].client !in s.blocklist ==>
          s.excl == Some(s.flight[i].client) && s.flight[i].session == |s.owners| - 1)
  }

  /** The accepted accesses of different lock sessions do not interleave. */
  ghost predicate Serialized(log: seq<Access>) {
    forall i, j :: 0 <= i < j < |log| ==>
      log[i].session <= log[j].session && (log[i].session == log[j].session ==> log[i].client == log[j].client)
  }

  // ----- the inductive invariant

  /** In a session of its own, even if only with what it has in flight, and not fenced off. */
  predicate Present(s: State, c: Client) {
    InSession(Phased(s, c)) && c !in s.blocklist
  }

  predicate InSession(p: Phase) {
    p.Held? || p.Lost?
  }

  /** A present client owns the attribute and the newest session. */
  ghost predicate PresentOwns(s: State) {
    forall c: Client :: Present(s, c) ==> s.excl == Some(c) && Phased(s, c).session == |s.owners| - 1
  }

  /** The owner attribute names a client that got past lock() and did not unlock. */
  ghost predicate OwnerEntered(s: State) {
    s.excl.Some? ==> InSession(Phased(s, s.excl.value))
  }

  /** A client that recovers under a valid lease has seen the current owner, or knows that
      nobody is present. */
  ghost predicate RecoverySound(s: State) {
    forall c: Client :: s.holder == Some(c) ==>
      && (Phased(s, c).Fencing? ==> s.excl == Some(Phased(s, c).last))
      && (Phased(s, c) == Owning ==> forall d: Client :: !Present(s, d))
  }

  /** What is in flight was sent in the session its client is still in. */
  ghost predicate FlightOk(s: State) {
    forall i :: 0 <= i < |s.flight| ==>
      Phased(s, s.flight[i].client) in {Held(s.flight[i].session), Lost(s.flight[i].session)}
  }

  ghost predicate SessionsOk(s: State) {
    && (forall c: Client :: InSession(Phased(s, c)) ==>
          Phased(s, c).session < |s.owners| && s.owners[Phased(s, c).session] == c)
    && (forall i :: 0 <= i < |s.log| ==> s.log[i].session < |s.owners| && s.owners[s.log[i].session] == s.log[i].client)
    && Serialized(s.log)
  }

  ghost predicate Inv(s: State) {
    s.fence && PresentOwns(s) && OwnerEntered(s) && RecoverySound(s) && FlightOk(s) && SessionsOk(s)
  }

  /** A client gets past lock() in two ways only. */
  predicate Entering(s: State, a: Action, d: Client) {
    || (a == Own(d) && Phased(s, d) == Owning && Step(s, a) == Enter(s, d))
    || (a == FastPath(d) && Phased(s, d) == Trying && s.excl == s.holder == None
        && Step(s, a) == Enter(s, d).(holder := Some(d)))
  }

  lemma StepSession(s: State, a: Action, d: Client)
    requires InSession(Phased(Step(s, a), d))
    ensures Entering(s, a, d)
      || (InSession(Phased(s, d)) && Phased(s, d).session == Phased(Step(s, a), d).session)
  {
  }

  /** A session ends by unlocking only, and then nothing of it is in flight. */
  lemma StepLeaves(s: State, a: Action, d: Client)
    requires InSession(Phased(s, d))
    ensures || (InSession(Phased(Step(s, a), d)) && Phased(s, d).session == Phased(Step(s, a), d).session)
            || (a == Unlock(d) && s.excl == Some(d) && Step(s, a).excl == None && !Pending(s, d))
  {
  }

  lemma StepFrame(s: State, a: Action)
    ensures s.blocklist <= Step(s, a).blocklist && s.fence == Step(s, a).fence
    ensures (exists d: Client :: Entering(s, a, d)) || Step(s, a).owners == s.owners
    ensures || (exists d: Client :: Entering(s, a, d))
            || Step(s, a).excl == s.excl
            || (a.Unlock? && Step(s, a).excl == Step(s, a).holder == None && s.holder == s.excl == Some(a.c)
                && Phased(Step(s, a), a.c) == Idle)
  {
    hide Pending;
    if a.Own? { assert Step(s, a) == Enter(s, a.c) ==> Phased(s, a.c) == Owning ==> Entering(s, a, a.c); }
    if a.FastPath? && s.excl == s.holder == None && Phased(s, a.c) == Trying {
      assert Step(s, a) == Enter(s, a.c).(holder := Some(a.c)) ==> Entering(s, a, a.c);
    }
  }

  /** Nobody is present when a client gets past lock(). */
  lemma NobodyPresent(s: State, a: Action, d: Client, c: Client)
    requires Inv(s) && LeaseKept(s, a) && Entering(s, a, d)
    ensures !Present(s, c)
  {
  }

  /** A session starts from an empty pipeline: whatever earlier clients still have in flight
      is refused when it arrives, now and forever after. */
  lemma SessionStartsClean(s: State, a: Action, d: Client, i: nat, run: seq<Action>)
    requires Inv(s) && LeaseKept(s, a) && Entering(s, a, d) && i < |s.flight|
    ensures s.flight[i].client in Exec(Step(s, a), run).blocklist
  {
    hide Step, Entering, Exec, LeaseKept;
    NobodyPresent(s, a, d, s.flight[i].client);
    StepFrame(s, a);
    BlocklistGrows(Step(s, a), run);
  }

  lemma {:induction false} BlocklistGrows(s: State, run: seq<Action>)
    ensures s.blocklist <= Exec(s, run).blocklist
    decreases |run|
  {
    hide Step;
    if run != [] {
      StepFrame(s, run[0]);
      BlocklistGrows(Step(s, run[0]), run[1..]);
    }
  }

  lemma StepPresentOwns(s: State, a: Action)
    requires Inv(s) && LeaseKept(s, a)
    ensures PresentOwns(Step(s, a))
  {
    hide Step, Inv, LeaseKept;
    var t := Step(s, a);
    StepFrame(s, a);
    forall c: Client | Present(t, c) ensures t.excl == Some(c) && Phased(t, c).session == |t.owners| - 1 {
      StepSession(s, a, c);
      StepOwners(s, a);
      if !Entering(s, a, c) {
        InvPresent(s, c);
        if d: Client :| Entering(s, a, d) { NobodyPresent(s, a, d, c); }
      }
    }
  }

  lemma InvPresent(s: State, c: Client)
    requires Inv(s) && Present(s, c)
    ensures s.excl == Some(c) && Phased(s, c).session == |s.owners| - 1
  {
  }

  lemma StepOwnerEntered(s: State, a: Action)
    requires OwnerEntered(s)
    ensures OwnerEntered(Step(s, a))
  {
    hide Pending;
  }

  lemma StepFencing(s: State, a: Action, c: Client)
    requires Inv(s) && LeaseKept(s, a)
    requires Step(s, a).holder == Some(c) && Phased(Step(s, a), c).Fencing?
    ensures Step(s, a).excl == Some(Phased(Step(s, a), c).last)
  {
    hide Pending, SessionsOk, FlightOk;
  }

  lemma StepOwning(s: State, a: Action, c: Client, d: Client)
    requires Inv(s) && LeaseKept(s, a)
    requires Step(s, a).holder == Some(c) && Phased(Step(s, a), c) == Owning
    ensures !Present(Step(s, a), d)
  {
    hide Pending, SessionsOk, FlightOk;
    if Present(Step(s, a), d) {
      StepSession(s, a, d);
      if Present(s, d) { InvPresent(s, d); }
    }
  }

  lemma StepRecoverySound(s: State, a: Action)
    requires Inv(s) && LeaseKept(s, a)
    ensures RecoverySound(Step(s, a))
  {
    hide Step, LeaseKept, Inv, Present;
    var t := Step(s, a);
    forall c: Client | t.holder == Some(c) && Phased(t, c).Fencing? ensures t.excl == Some(Phased(t, c).last) {
      StepFencing(s, a, c);
    }
    forall c: Client, d: Client | t.holder == Some(c) && Phased(t, c) == Owning ensures !Present(t, d) {
      StepOwning(s, a, c, d);
    }
  }

  lemma StepOwners(s: State, a: Action)
    ensures s.owners <= Step(s, a).owners
    ensures forall d: Client :: Entering(s, a, d) ==>
      Step(s, a).owners == s.owners + [d] && Phased(Step(s, a), d) == Held(|s.owners|) && Step(s, a).excl == Some(d)
    ensures Step(s, a).log == s.log
      || (a.Arrive? && a.i < |s.flight| && s.flight[a.i].client !in s.blocklist
        && Step(s, a).log == s.log + [s.flight[a.i]])
  {
    hide Pending;
  }

  /** Where the accesses in flight come from. */
  lemma StepFlight(s: State, a: Action, i: nat)
    requires i < |Step(s, a).flight|
    ensures || (a.Send? && Phased(s, a.c).Held? && Step(s, a).flight[i] == Access(a.c, Phased(s, a.c).session))
            || exists j :: 0 <= j < |s.flight| && s.flight[j] == Step(s, a).flight[i]
  {
    hide Pending;
    if a.Arrive? && a.i < |s.flight| {
      assert Step(s, a).flight[i] == s.flight[if i < a.i then i else i + 1];
    } else if !(a.Send? && i == |s.flight|) {
      assert Step(s, a).flight[i] == s.flight[i];
    }
  }

  lemma StepFlightOk(s: State, a: Action)
    requires FlightOk(s)
    ensures FlightOk(Step(s, a))
  {
    hide Step, Entering;
    var t := Step(s, a);
    forall i | 0 <= i < |t.flight|
      ensures Phased(t, t.flight[i].client) in {Held(t.flight[i].session), Lost(t.flight[i].session)}
    {
      StepFlight(s, a, i);
      StepLeaves(s, a, t.flight[i].client);
    }
  }

  lemma StepSessions(s: State, a: Action)
    requires Inv(s) && LeaseKept(s, a)
    ensures SessionsOk(Step(s, a))
  {
    hide Step, LeaseKept, Entering, PresentOwns, RecoverySound, OwnerEntered;
    var t := Step(s, a);
    StepOwners(s, a);
    forall c: Client | InSession(Phased(t, c))
      ensures Phased(t, c).session < |t.owners| && t.owners[Phased(t, c).session] == c
    {
      StepSession(s, a, c);
    }
    if t.log != s.log { InvPresent(s, s.flight[a.i].client); }
  }

  lemma StepKeepsInv(s: State, a: Action)
    requires Inv(s) && LeaseKept(s, a)
    ensures Inv(Step(s, a))
  {
    hide Step, PresentOwns, RecoverySound, SessionsOk, LeaseKept, FlightOk, OwnerEntered;
    StepFrame(s, a);
    StepPresentOwns(s, a);
    StepOwnerEntered(s, a);
    StepRecoverySound(s, a);
    StepFlightOk(s, a);
    StepSessions(s, a);
  }

  lemma {:induction false} ExecKeepsInv(s: State, run: seq<Action>)
    requires Inv(s) && LeasesKept(s, run)
    ensures Inv(Exec(s, run))
    decreases |run|
  {
    hide Step, Inv, LeaseKept;
    if run != [] {
      StepKeepsInv(s, run[0]);
      ExecKeepsInv(Step(s, run[0]), run[1..]);
    }
  }

  lemma InvExclusive(s: State)
    requires Inv(s)
    ensures Exclusive(s) && Serialized(s.log)
  {
    forall i | 0 <= i < |s.flight| && s.flight[i].client !in s.blocklist
      ensures s.excl == Some(s.flight[i].client) && s.flight[i].session == |s.owners| - 1
    {
      InvPresent(s, s.flight[i].client);
    }
  }

  /** Mutual exclusion and fencing: in every run in which recovery stays within its lease,
      at most one unfenced client is past lock(), the owner attribute names it, and the
      sessions' accesses to the file do not interleave, although they travel in flight and
      arrive in any order. */
  lemma MutualExclusion(run: seq<Action>)
    requires LeasesKept(Init(true), run)
    ensures Exclusive(Exec(Init(true), run)) && Serialized(Exec(Init(true), run).log)
  {
    hide Exec, LeasesKept, Exclusive;
    ExecKeepsInv(Init(true), run);
    InvExclusive(Exec(Init(true), run));
  }

  // ----- both assumptions are needed

  function NoFenceRun(): seq<Action> {
    [Call(1), FastPath(1), Expire, Call(2), FastPath(2), Recover(2), Fetch(2), Own(2)]
  }

  lemma NoFenceTwoOwners()
    ensures LeasesKept(Init(false), NoFenceRun())
    ensures !Exclusive(Exec(Init(false), NoFenceRun()))
  {
    hide Exec, LeasesKept;
    var s0 := Init(false);
    var s1 := Step(Step(s0, Call(1)), FastPath(1));
    var s2 := Step(Step(s1, Expire), Call(2));
    var s3 := Step(Step(s2, FastPath(2)), Recover(2));
    var s4 := Step(Step(s3, Fetch(2)), Own(2));
    var r3 := [Fetch(2), Own(2)] + [];
    var r2 := [FastPath(2), Recover(2)] + r3;
    var r1 := [Expire, Call(2)] + r2;
    assert NoFenceRun() == [Call(1), FastPath(1)] + r1;
    ExecTwo(s0, Call(1), FastPath(1), r1);
    ExecTwo(s1, Expire, Call(2), r2);
    ExecTwo(s2, FastPath(2), Recover(2), r3);
    ExecTwo(s3, Fetch(2), Own(2), []);
    ExecNil(s4);
    assert Active(s4, 1) && Active(s4, 2);
  }

  /** With recovery inside its lease, the file is exclusive in every run exactly when the
      dead owner is blocklisted. */
  lemma ExclusiveExactlyWhenFencing(fence: bool)
    ensures (forall run :: LeasesKept(Init(fence), run) ==> Exclusive(Exec(Init(fence), run))) <==> fence
  {
    hide Exec, LeasesKept, Exclusive;
    if fence {
      forall run | LeasesKept(Init(true), run) ensures Exclusive(Exec(Init(true), run)) { MutualExclusion(run); }
    } else {
      NoFenceTwoOwners();
    }
  }

  // ----- a lease lost during recovery

  /** A fresh client `d` that runs lock() to the end while nobody holds the lock. */
  function LockRun(s: State, d: Client): seq<Action> {
    if s.excl.None? then [Call(d), FastPath(d)]
    else [Call(d), FastPath(d), Recover(d), Fetch(d), Fence(d), Own(d)]
  }

  lemma ExecCons(s: State, a: Action, rest: seq<Action>)
    ensures Exec(s, [a] + rest) == Exec(Step(s, a), rest)
    ensures LeasesKept(s, [a] + rest) <==> LeaseKept(s, a) && LeasesKept(Step(s, a), rest)
  {
    assert ([a] + rest)[1..] == rest;
  }

  lemma ExecTwo(s: State, a: Action, b: Action, rest: seq<Action>)
    ensures Exec(s, [a, b] + rest) == Exec(Step(Step(s, a), b), rest)
    ensures LeasesKept(s, [a, b] + rest) <==>
      LeaseKept(s, a) && LeaseKept(Step(s, a), b) && LeasesKept(Step(Step(s, a), b), rest)
  {
    hide Step, LeaseKept;
    assert [a, b] + rest == [a] + ([b] + rest);
    ExecCons(s, a, [b] + rest);
    ExecCons(Step(s, a), b, rest);
  }

  lemma LockRunEnters(s: State, c: Client, d: Client)
    requires s.fence && s.holder == None && Phased(s, d) == Idle && d !in s.blocklist && c != d
    requires s.excl != Some(d)
    ensures LeasesKept(s, LockRun(s, d))
    ensures
      var t := Exec(s, LockRun(s, d));
      && Active(t, d) && Phased(t, c) == Phased(s, c)
      && (c in t.blocklist ==> c in s.blocklist || s.excl == Some(c))
  {
    hide Exec, LeasesKept;
    var s1 := Step(Step(s, Call(d)), FastPath(d));
    if s.excl.None? {
      assert LockRun(s, d) == [Call(d), FastPath(d)] + [];
      ExecTwo(s, Call(d), FastPath(d), []);
      ExecNil(s1);
    } else {
      assert LockRun(s, d) == [Call(d), FastPath(d)] + LockTail(d);
      ExecTwo(s, Call(d), FastPath(d), LockTail(d));
      LockTailEnters(s1, d);
    }
  }

  lemma ExecNil(s: State)
    ensures Exec(s, []) == s && LeasesKept(s, [])
  {
  }

  function LockTail(d: Client): seq<Action> {
    [Recover(d), Fetch(d), Fence(d), Own(d)]
  }

  lemma LockTailEnters(s: State, d: Client)
    requires s.fence && s.holder == None && Phased(s, d) == Recovering && d !in s.blocklist
    requires s.excl.Some? && s.excl != Some(d)
    ensures
      var t := Exec(s, LockTail(d));
      && LeasesKept(s, LockTail(d))
      && Active(t, d) && (forall c: Client :: c != d ==> Phased(t, c) == Phased(s, c))
      && t.blocklist == s.blocklist + {s.excl.value}
  {
    hide Exec, LeasesKept;
    var s1 := Step(Step(s, Recover(d)), Fetch(d));
    var s2 := Step(Step(s1, Fence(d)), Own(d));
    assert LockTail(d) == [Recover(d), Fetch(d)] + ([Fence(d), Own(d)] + []);
    ExecTwo(s, Recover(d), Fetch(d), [Fence(d), Own(d)] + []);
    ExecTwo(s1, Fence(d), Own(d), []);
    ExecNil(s2);
  }

  /** The other clients act, and the lease of `c`, if it has it, does not run out. */
  predicate Waits(s: State, a: Action, c: Client) {
    && LeaseKept(s, a)
    && (a.Expire? ==> s.holder != Some(c))
    && (!a.Expire? && !a.Arrive? ==> a.c != c)
  }

  predicate WaitsFor(s: State, run: seq<Action>, c: Client)
    decreases |run|
  {
    run == [] || (Waits(s, run[0], c) && WaitsFor(Step(s, run[0]), run[1..], c))
  }

  lemma StepKeepsLease(s: State, a: Action, c: Client)
    requires Waits(s, a, c) && s.holder == Some(c)
    ensures Step(s, a).holder == Some(c) && Phased(Step(s, a), c) == Phased(s, c)
  {
    hide Pending;
  }

  lemma {:induction false} LeaseSuffices(s: State, c: Client, run: seq<Action>)
    requires Inv(s) && Phased(s, c) == Owning && s.holder == Some(c) && WaitsFor(s, run, c)
    ensures Exclusive(Step(Exec(s, run), Own(c)))
    decreases |run|
  {
    hide Step, Inv, Exclusive;
    if run == [] {
      StepKeepsInv(s, Own(c));
      InvExclusive(Step(s, Own(c)));
    } else {
      StepKeepsInv(s, run[0]);
      StepKeepsLease(s, run[0], c);
      LeaseSuffices(Step(s, run[0]), c, run[1..]);
    }
  }

  /** The run in which whoever has the lease lets it run out and `d` locks the file. */
  function Overtakes(s: State, d: Client): seq<Action> {
    [Expire] + LockRun(Step(s, Expire), d)
  }

  lemma LostLeaseBreaks(s: State, c: Client, d: Client)
    requires Inv(s) && Phased(s, c) == Owning && c !in s.blocklist && s.holder != Some(c)
    requires c != d && Phased(s, d) == Idle && d !in s.blocklist
    ensures WaitsFor(s, Overtakes(s, d), c)
    ensures !Exclusive(Step(Exec(s, Overtakes(s, d)), Own(c)))
  {
    hide Exec, WaitsFor, LeasesKept, LockRun, Inv;
    var e := Step(s, Expire);
    InvOwner(s);
    LockRunEnters(e, c, d);
    LockRunWaits(e, c, d);
    ExecCons(s, Expire, LockRun(e, d));
    WaitsCons(s, Expire, LockRun(e, d), c);
    var t := Exec(e, LockRun(e, d));
    assert Active(Step(t, Own(c)), c) && Active(Step(t, Own(c)), d);
  }

  lemma InvOwner(s: State)
    requires Inv(s)
    ensures s.fence && (s.excl.Some? ==> InSession(Phased(s, s.excl.value)))
  {
  }

  lemma WaitsCons(s: State, a: Action, rest: seq<Action>, c: Client)
    ensures WaitsFor(s, [a] + rest, c) <==> Waits(s, a, c) && WaitsFor(Step(s, a), rest, c)
  {
    hide Step, Waits;
    assert ([a] + rest)[1..] == rest;
  }

  lemma {:induction false} OthersWait(s: State, run: seq<Action>, c: Client)
    requires LeasesKept(s, run)
    requires forall i :: 0 <= i < |run| ==> !run[i].Expire? && !run[i].Arrive? && run[i].c != c
    ensures WaitsFor(s, run, c)
    decreases |run|
  {
    hide Step, LeaseKept;
    if run != [] { OthersWait(Step(s, run[0]), run[1..], c); }
  }

  lemma LockRunWaits(s: State, c: Client, d: Client)
    requires c != d && LeasesKept(s, LockRun(s, d))
    ensures WaitsFor(s, LockRun(s, d), c)
  {
    OthersWait(s, LockRun(s, d), c);
  }

  /** The lease is exactly what the unconditional owner update relies on.  A client is about
      to write itself as the owner, and another one is free to lock the file: whatever the
      other clients do before that write, the file is exclusive after it, if and only if the
      client still holds its lease. */
  lemma ExclusiveExactlyUnderLease(s: State, c: Client, d: Client)
    requires Inv(s) && Phased(s, c) == Owning && c !in s.blocklist
    requires c != d && Phased(s, d) == Idle && d !in s.blocklist
    ensures (forall run :: WaitsFor(s, run, c) ==> Exclusive(Step(Exec(s, run), Own(c)))) <==> s.holder == Some(c)
  {
    hide Step, Exec, WaitsFor, Exclusive, Inv;
    if s.holder == Some(c) {
      forall run | WaitsFor(s, run, c) ensures Exclusive(Step(Exec(s, run), Own(c))) { LeaseSuffices(s, c, run); }
    } else {
      LostLeaseBreaks(s, c, d);
    }
  }

  /** Client 2 recovers from client 1 and loses its lease just before it would write itself
      as the owner. */
  function LostLeaseRun(): seq<Action> {
    [Call(1), FastPath(1), Expire, Call(2), FastPath(2), Recover(2), Fetch(2), Fence(2), Expire]
  }

  /** Such a state is reached from the start by a run that keeps every lease so far, and from
      there two clients can become active. */
  lemma LostLeaseReached()
    ensures
      var s := Exec(Init(true), LostLeaseRun());
      && LeasesKept(Init(true), LostLeaseRun())
      && Inv(s) && Phased(s, 2) == Owning && 2 !in s.blocklist && s.holder == None && Phased(s, 3) == Idle
        && 3 !in s.blocklist
      && WaitsFor(s, Overtakes(s, 3), 2)
      && !Exclusive(Step(Exec(s, Overtakes(s, 3)), Own(2)))
  {
    hide Exec, LeasesKept, Inv, Exclusive, WaitsFor, Overtakes;
    var s0 := Init(true);
    var s1 := Step(Step(s0, Call(1)), FastPath(1));
    var s2 := Step(Step(s1, Expire), Call(2));
    var s3 := Step(Step(s2, FastPath(2)), Recover(2));
    var s4 := Step(Step(s3, Fetch(2)), Fence(2));
    var r4 := [Expire] + [];
    var r3 := [Fetch(2), Fence(2)] + r4;
    var r2 := [FastPath(2), Recover(2)] + r3;
    var r1 := [Expire, Call(2)] + r2;
    assert LostLeaseRun() == [Call(1), FastPath(1)] + r1;
    ExecTwo(s0, Call(1), FastPath(1), r1);
    ExecTwo(s1, Expire, Call(2), r2);
    ExecTwo(s2, FastPath(2), Recover(2), r3);
    ExecTwo(s3, Fetch(2), Fence(2), r4);
    ExecCons(s4, Expire, []);
    ExecNil(Step(s4, Expire));
    assert Inv(s0) by { InitInv(); }
    ExecKeepsInv(s0, LostLeaseRun());
    LostLeaseBreaks(Exec(s0, LostLeaseRun()), 2, 3);
  }

  lemma InitInv()
    ensures Inv(Init(true))
  {
  }

  // ----- what the protocol gets done

  /** The client may give the lock back: it is past lock(), unfenced, still the holder and the
      owner, and flush() has nothing left to wait for. */
  predicate CanUnlock(s: State, c: Client) {
    Phased(s, c).Held? && c !in s.blocklist && s.excl == s.holder == Some(c) && !Pending(s, c)
  }

  /** Unlocking releases the lock and the owner attribute, exactly when it may, and otherwise
      changes nothing. */
  lemma UnlockReleases(s: State, c: Client)
    ensures
      var t := Step(s, Unlock(c));
      if CanUnlock(s, c) then
        && t.holder == None && t.excl == None && Phased(t, c) == Idle
        && (forall d: Client :: d != c ==> Phased(t, d) == Phased(s, d))
        && t.blocklist == s.blocklist && t.flight == s.flight && t.log == s.log && t.owners == s.owners
      else t == s
  {
  }

  /** After an orderly unlock any unfenced idle client gets past lock() at once, and nobody is
      blocklisted for it. */
  lemma HandsOver(s: State, c: Client, d: Client)
    requires CanUnlock(s, c) && d !in s.blocklist && (d == c || Phased(s, d) == Idle)
    ensures
      var t := Exec(s, [Unlock(c), Call(d), FastPath(d)]);
      && Active(t, d) && t.holder == t.excl == Some(d) && t.owners == s.owners + [d]
      && t.blocklist == s.blocklist && (d != c ==> Phased(t, c) == Idle)
  {
    hide Exec;
    var s1 := Step(s, Unlock(c));
    var s2 := Step(Step(s1, Call(d)), FastPath(d));
    assert [Unlock(c), Call(d), FastPath(d)] == [Unlock(c)] + ([Call(d), FastPath(d)] + []);
    UnlockReleases(s, c);
    ExecCons(s, Unlock(c), [Call(d), FastPath(d)] + []);
    ExecTwo(s1, Call(d), FastPath(d), []);
    ExecNil(s2);
  }

  /** Nobody holds, owns or wants the lock, and nothing is under way. */
  predicate Quiet(s: State) {
    s.holder == s.excl == None && s.flight == [] && forall c :: c in s.phases ==> s.phases[c] == Idle
  }

  /** One client locks the file, accesses it and unlocks it. */
  function Visit(d: Client): seq<Action> {
    [Call(d), FastPath(d)] + ([Send(d), Arrive(0)] + ([Unlock(d)] + []))
  }

  /** Everybody but `d` is idle, and `d` is past lock() in session `n`. */
  predicate Alone(s: State, d: Client, n: nat) {
    && s.holder == s.excl == Some(d) && s.flight == [] && Phased(s, d) == Held(n)
    && forall c :: c in s.phases && c != d ==> s.phases[c] == Idle
  }

  lemma GetsIn(s: State, d: Client)
    requires Quiet(s) && d !in s.blocklist
    ensures
      var t := Step(Step(s, Call(d)), FastPath(d));
      Alone(t, d, |s.owners|) && t.blocklist == s.blocklist && t.owners == s.owners + [d] && t.log == s.log
  {
    hide Pending;
    assert Phased(s, d) == Idle;
    var u := Step(s, Call(d));
    assert u == Goto(s, d, Trying);
  }

  lemma GetsAccess(s: State, d: Client, n: nat)
    requires Alone(s, d, n) && d !in s.blocklist
    ensures Step(Step(s, Send(d)), Arrive(0)) == s.(log := s.log + [Access(d, n)])
  {
    hide Pending;
    var u := Step(s, Send(d));
    assert u.flight == [Access(d, n)] && u.flight[..0] + u.flight[1..] == s.flight;
  }

  lemma GetsOut(s: State, d: Client, n: nat)
    requires Alone(s, d, n) && d !in s.blocklist
    ensures
      var t := Step(s, Unlock(d));
      Quiet(t) && t.blocklist == s.blocklist && t.owners == s.owners && t.log == s.log
  {
  }

  lemma VisitDone(s: State, d: Client)
    requires Quiet(s) && d !in s.blocklist
    ensures
      var t := Exec(s, Visit(d));
      && Quiet(t) && t.blocklist == s.blocklist
      && t.owners == s.owners + [d] && t.log == s.log + [Access(d, |s.owners|)]
  {
    hide Exec, Step, Quiet, Alone;
    var s1 := Step(Step(s, Call(d)), FastPath(d));
    var s2 := Step(Step(s1, Send(d)), Arrive(0));
    ExecTwo(s, Call(d), FastPath(d), [Send(d), Arrive(0)] + ([Unlock(d)] + []));
    ExecTwo(s1, Send(d), Arrive(0), [Unlock(d)] + []);
    ExecCons(s2, Unlock(d), []);
    ExecNil(Step(s2, Unlock(d)));
    GetsIn(s, d);
    GetsAccess(s1, d, |s.owners|);
    StillAlone(s1, s2, d, |s.owners|);
    GetsOut(s2, d, |s.owners|);
  }

  lemma StillAlone(s: State, t: State, d: Client, n: nat)
    requires Alone(s, d, n) && t == s.(log := t.log)
    ensures Alone(t, d, n)
  {
  }

  function Visits(ds: seq<Client>): seq<Action> {
    if ds == [] then [] else Visits(ds[..|ds| - 1]) + Visit(ds[|ds| - 1])
  }

  /** Any clients in any order, each locking, accessing and unlocking: all of them get through,
      every access is accepted in order, and nobody is ever blocklisted. */
  lemma {:induction false} VisitsDone(ds: seq<Client>, fence: bool)
    ensures
      var t := Exec(Init(fence), Visits(ds));
      && Quiet(t) && t.blocklist == {} && t.owners == ds
      && t.log == seq(|ds|, i requires 0 <= i < |ds| => Access(ds[i], i))
  {
    hide Exec, Visit;
    if ds == [] {
      ExecNil(Init(fence));
    } else {
      var init, d := ds[..|ds| - 1], ds[|ds| - 1];
      VisitsDone(init, fence);
      ExecAppend(Init(fence), Visits(init), Visit(d));
      VisitDone(Exec(Init(fence), Visits(init)), d);
      assert ds == init + [d];
    }
  }

  lemma {:induction false} ExecAppend(s: State, a: seq<Action>, b: seq<Action>)
    ensures Exec(s, a + b) == Exec(Exec(s, a), b)
    decreases |a|
  {
    hide Step;
    if a == [] {
      assert a + b == b;
    } else {
      assert (a + b)[1..] == a[1..] + b && (a + b)[0] == a[0];
      ExecAppend(Step(s, a[0]), a[1..], b);
    }
  }

  /** A client that waits for a busy lock keeps waiting and disturbs nobody. */
  lemma BusyWaits(s: State, c: Client, e: Client)
    requires Phased(s, c) == Trying && c !in s.blocklist && s.holder == Some(e) && e != c
    ensures Step(s, FastPath(c)) == s
  {
  }

  /** A recovery that comes too late tries again and disturbs nobody. */
  lemma RecoveryTooLate(s: State, c: Client, e: Client)
    requires Phased(s, c) == Recovering && c !in s.blocklist && s.holder == Some(e) && e != c
    ensures Step(s, Recover(c)) == Goto(s, c, Trying)
  {
  }

  /** If the last owner cleaned up in the meantime, recovery fences nobody. */
  lemma NothingToFence(s: State, d: Client)
    requires Phased(s, d) == Recovering && d !in s.blocklist && s.holder == s.excl == None
    ensures
      var t := Exec(s, [Recover(d), Fetch(d), Own(d)]);
      Active(t, d) && t.holder == t.excl == Some(d) && t.blocklist == s.blocklist
  {
    hide Exec;
    var s1 := Step(Step(s, Recover(d)), Fetch(d));
    assert [Recover(d), Fetch(d), Own(d)] == [Recover(d), Fetch(d)] + ([Own(d)] + []);
    ExecTwo(s, Recover(d), Fetch(d), [Own(d)] + []);
    ExecCons(s1, Own(d), []);
    ExecNil(Step(s1, Own(d)));
  }

  /** A renewal keeps the session exactly when the lease is still held and the client is not
      fenced; otherwise the session is lost. */
  lemma RenewDecides(s: State, c: Client)
    requires Phased(s, c).Held?
    ensures
      var t := Step(s, Renew(c));
      if s.holder == Some(c) && c !in s.blocklist then t == s
      else t == Goto(s, c, Lost(Phased(s, c).session))
    ensures Step(s, RenewFails(c)) == Goto(s, c, Lost(Phased(s, c).session))
  {
  }

  /** A client that lost its session never acts again: nothing more of it gets in flight. */
  lemma {:induction false} LostForGood(s: State, c: Client, run: seq<Action>)
    requires Phased(s, c).Lost?
    ensures Phased(Exec(s, run), c) == Phased(s, c)
    ensures forall i :: 0 <= i < |Exec(s, run).flight| && Exec(s, run).flight[i].client == c ==>
      Exec(s, run).flight[i] in s.flight
    decreases |run|
  {
    hide Step;
    if run != [] {
      var t := Step(s, run[0]);
      LostStays(s, run[0], c);
      LostForGood(t, c, run[1..]);
      forall i | 0 <= i < |t.flight| && t.flight[i].client == c ensures t.flight[i] in s.flight {
        StepFlight(s, run[0], i);
      }
    }
  }

  lemma LostStays(s: State, a: Action, c: Client)
    requires Phased(s, c).Lost?
    ensures Phased(Step(s, a), c) == Phased(s, c)
  {
    hide Pending;
  }

  /** A fenced client never gets past lock() again. */
  lemma {:induction false} FencedStaysOut(s: State, c: Client, run: seq<Action>)
    requires c in s.blocklist && !InSession(Phased(s, c))
    ensures !InSession(Phased(Exec(s, run), c))
    decreases |run|
  {
    hide Step;
    if run != [] {
      FencedNotEntering(s, run[0], c);
      StepFrame(s, run[0]);
      FencedStaysOut(Step(s, run[0]), c, run[1..]);
    }
  }

  lemma FencedNotEntering(s: State, a: Action, c: Client)
    requires c in s.blocklist && !InSession(Phased(s, c))
    ensures !InSession(Phased(Step(s, a), c))
  {
    hide Pending;
  }

  /** An access that arrives is accepted exactly when its client is not fenced. */
  lemma ArrivalDecides(s: State, i: nat)
    requires i < |s.flight|
    ensures
      var t, a := Step(s, Arrive(i)), s.flight[i];
      && multiset(t.flight) == multiset(s.flight) - multiset{a}
      && t.log == s.log + if a.client in s.blocklist then [] else [a]
  {
    assert s.flight == s.flight[..i] + [s.flight[i]] + s.flight[i + 1..];
  }

  /** An attempt ends with an error, and nothing else happens, when the client is fenced or
      when the lock is still its own from an attempt that failed half-way. */
  lemma AttemptEnds(s: State, c: Client)
    requires c in s.blocklist || s.holder == Some(c)
    ensures Phased(s, c) == Trying ==> Step(s, FastPath(c)) == Goto(s, c, Idle)
    ensures Phased(s, c) == Recovering ==> Step(s, Recover(c)) == Goto(s, c, Idle)
    ensures Phased(s, c) == Fetching && c in s.blocklist ==> Step(s, Fetch(c)) == Goto(s, c, Idle)
    ensures Phased(s, c) == Owning && c in s.blocklist ==> Step(s, Own(c)) == Goto(s, c, Idle)
  {
  }

  /** A client past lock() sends its accesses whether or not it has been fenced in the
      meantime, and no other client sends any. */
  lemma SendingNeedsSession(s: State, c: Client)
    ensures Step(s, Send(c)).flight ==
      if Phased(s, c).Held? then s.flight + [Access(c, Phased(s, c).session)] else s.flight
    ensures Step(s, Send(c)) == s.(flight := Step(s, Send(c)).flight)
  {
  }

  /** A failed operation of lock() ends the attempt and nothing else. */
  lemma FaultEndsAttempt(s: State, c: Client)
    ensures Step(s, Fault(c)) == if InSession(Phased(s, c)) then s else Goto(s, c, Idle)
  {
  }
}
