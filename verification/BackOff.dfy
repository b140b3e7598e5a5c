/**
 How long a root holds off after a wait without a grant or a refused reservation
 (build_coordinator.rs 470-495, 562-579, 904-962): the time recorded stays while nothing
 happens to that root, and the kind of build stays held off exactly until a step ends it.
 */
module BackOff {
  import opened Basics
  import opened Admission
  import opened Ledger
  import opened CoordinatorRuns
  import opened Permits

  function Deferral(s: State, root: Root): Option<DeferredBuild> {
    if root in s.deferred then Some(s.deferred[root]) else None
  }

  /** The build that would time out. */
  function Waiter(s: State, ticket: Ticket): Option<QueuedBuild> {
    var i := FirstTicket(s.waiters, ticket, 0);
    if i < |s.waiters| then Some(s.waiters[i]) else None
  }

  predicate Claims(e: Event) { e.ReserveBytes? || e.OpenScope? || e.RetainBytes? }

  /** A build of the root times out, its active build reserves, or the root is removed. */
  predicate Touches(y: System, e: Event, root: Root) {
    (e.TimeOut? && Waiter(y.state, e.ticket).Some? && Waiter(y.state, e.ticket).value.root == root)
    || (Claims(e) && y.state.active.Some? && y.state.active.value.root == root)
    || e == ForgetRoot(root)
  }

  lemma ClaimDefers(s: State, policy: Policy, permit: Permit, reserved: nat, retained: nat, sampled: nat, now: nat,
                    late: bool, root: Root)
    ensures var (t, r) := Reserve(s, policy, permit, reserved, retained, sampled, now, late);
      Deferral(t, root) ==
        if permit.root != root then Deferral(s, root)
        else if r == Reserved then None
        else if r.error in {TemporaryBudgetExceeded, ProcessPressure} then
          Some(DeferredBuild(s.active.value.kind, reserved, now + DEFERRED_RETRY_BACKOFF))
        else Deferral(s, root)
  {
  }

  lemma ClaimsElsewhere(policy: Policy, y: System, e: Event, root: Root)
    requires HandlesInv(y) && Claims(e) && !Touches(y, e, root)
    ensures Deferral(Step(policy, y, e).state, root) == Deferral(y.state, root)
  {
    match e
    case ReserveBytes(id, reserved, retained, sampled, now, late) =>
      if IsShare(y, id) {
        ClaimDefers(y.state, policy, y.handles[id].permit, reserved, retained, sampled, now, late, root);
      }
    case RetainBytes(id, bytes, sampled, now, late) =>
      if IsLease(y, id) {
        var h := y.handles[id];
        var claimed := SatAdd(h.parentRetained, bytes);
        ClaimDefers(y.state, policy, h.permit, h.parentReserved, claimed, sampled, now, late, root);
      }
    case OpenScope(read, scope, bytes, sampled, now, late) =>
      if read in y.pending {
        var d := y.pending[read];
        assert Carries(d.permit, Holder(y.state.active));
        var estimate := Estimate(scope, d.reserved, bytes);
        ClaimDefers(y.state, policy, d.permit, estimate, d.retained, sampled, now, late, root);
      }
  }

  lemma CompactionDefersNothing(policy: Policy, y: System, e: Event)
    requires OfCompaction(e)
    ensures Step(policy, y, e).state.deferred == y.state.deferred
  {
    match e
    case AskCompaction(root, epoch) =>
      assert RequestCompaction(y.state, root, epoch).0.deferred == y.state.deferred;
    case BeginCompaction(worker) =>
    case EndCompaction(worker, retry) =>
  }

  lemma OthersDeferNothing(policy: Policy, y: System, e: Event)
    requires !Claims(e) && !OfCompaction(e) && !e.ForgetRoot? && !e.TimeOut?
    ensures Step(policy, y, e).state.deferred == y.state.deferred
  {
  }

  lemma UntouchedStep(policy: Policy, y: System, e: Event, root: Root)
    requires HandlesInv(y) && !Touches(y, e, root)
    ensures Deferral(Step(policy, y, e).state, root) == Deferral(y.state, root)
  {
    if Claims(e) {
      ClaimsElsewhere(policy, y, e, root);
    } else if OfCompaction(e) {
      CompactionDefersNothing(policy, y, e);
    } else if e.ForgetRoot? {
      assert e.root != root;
    } else if !e.TimeOut? {
      OthersDeferNothing(policy, y, e);
    }
  }

  /** None of the three happens to the root in the run. */
  ghost predicate LeftAlone(policy: Policy, y: System, events: seq<Event>, root: Root)
    decreases |events|
  {
    events == [] || (!Touches(y, events[0], root) && LeftAlone(policy, Step(policy, y, events[0]), events[1..], root))
  }

  lemma {:induction false} UntouchedRun(policy: Policy, y: System, events: seq<Event>, root: Root)
    requires HandlesInv(y) && LeftAlone(policy, y, events, root)
    ensures Deferral(Run(policy, y, events).state, root) == Deferral(y.state, root)
    decreases |events|
  {
    if events != [] {
      UntouchedStep(policy, y, events[0], root);
      StepKeepsHandles(policy, y, events[0]);
      UntouchedRun(policy, Step(policy, y, events[0]), events[1..], root);
    }
  }

  /** Every kind of build but `kind` may queue for the root at once; that one at `until`. */
  ghost predicate OnlyHoldsOff(s: State, root: Root, kind: BuildKind, until: nat) {
    forall k :: RetryAfter(s, root, k) == if k == kind then Some(until) else None
  }

  /**
   A build that waited in vain holds off builds of its root and kind, and no others, for the
   whole back-off time, whatever else happens in the run, as long as no build of that root
   times out or reserves and the root is not removed.
   */
  lemma TimeOutHoldsOff(policy: Policy, before: seq<Event>, ticket: Ticket, now: nat, events: seq<Event>)
    requires var y := Run(policy, START, before);
      Waiter(y.state, ticket).Some?
      && LeftAlone(policy, Step(policy, y, TimeOut(ticket, now)), events, Waiter(y.state, ticket).value.root)
    ensures var y := Run(policy, START, before);
      var q := Waiter(y.state, ticket).value;
      OnlyHoldsOff(Run(policy, Step(policy, y, TimeOut(ticket, now)), events).state,
                   q.root, q.kind, now + DEFERRED_RETRY_BACKOFF)
  {
    RunKeepsPermits(policy, START, before);
    var y := Run(policy, START, before);
    StepKeepsHandles(policy, y, TimeOut(ticket, now));
    UntouchedRun(policy, Step(policy, y, TimeOut(ticket, now)), events, Waiter(y.state, ticket).value.root);
  }

  /** So does a reservation refused for memory, for the kind of the build that asked. */
  lemma RefusalHoldsOff(policy: Policy, before: seq<Event>, id: nat, reserved: nat, retained: nat, sampled: nat,
                        now: nat, late: bool, events: seq<Event>)
    requires var y := Run(policy, START, before);
      IsShare(y, id) && y.state.active.Some?
      && Reserve(y.state, policy, y.handles[id].permit, reserved, retained, sampled, now, late).1
         in {NotReserved(TemporaryBudgetExceeded), NotReserved(ProcessPressure)}
      && LeftAlone(policy, Step(policy, y, ReserveBytes(id, reserved, retained, sampled, now, late)), events,
                   y.state.active.value.root)
    ensures var y := Run(policy, START, before);
      var z := Step(policy, y, ReserveBytes(id, reserved, retained, sampled, now, late));
      OnlyHoldsOff(Run(policy, z, events).state,
                   y.state.active.value.root, y.state.active.value.kind, now + DEFERRED_RETRY_BACKOFF)
  {
    RunKeepsPermits(policy, START, before);
    var y := Run(policy, START, before);
    var e := ReserveBytes(id, reserved, retained, sampled, now, late);
    var root := y.state.active.value.root;
    ClaimDefers(y.state, policy, y.handles[id].permit, reserved, retained, sampled, now, late, root);
    StepKeepsHandles(policy, y, e);
    UntouchedRun(policy, Step(policy, y, e), events, root);
  }

  /**
   One entry per root: when a build of another kind of the same root times out as well, the
   first kind no longer holds off, however recent its own time-out is.
   */
  lemma OtherKindEndsIt(policy: Policy, y: System, first: Ticket, second: Ticket, now: nat, later: nat)
    requires Waiter(y.state, first).Some?
    requires var z := Step(policy, y, TimeOut(first, now));
      Waiter(z.state, second).Some?
      && Waiter(z.state, second).value.root == Waiter(y.state, first).value.root
      && Waiter(z.state, second).value.kind != Waiter(y.state, first).value.kind
    ensures var q := Waiter(y.state, first).value;
      var z := Step(policy, y, TimeOut(first, now));
      RetryAfter(z.state, q.root, q.kind) == Some(now + DEFERRED_RETRY_BACKOFF)
      && RetryAfter(Step(policy, z, TimeOut(second, later)).state, q.root, q.kind) == None
  {
  }

  // ---------------------------------------------------------------- when a back-off ends

  /** Builds of this kind have to wait before they queue for the root. */
  predicate HeldOff(s: State, root: Root, kind: BuildKind) { RetryAfter(s, root, kind).Some? }

  /** The claim is for the root, and is accepted, or refused for memory while a build of another kind is active. */
  predicate ClaimEnds(s: State, policy: Policy, permit: Permit, reserved: nat, retained: nat, sampled: nat, now: nat,
                      late: bool, root: Root, kind: BuildKind)
  {
    var r := Reserve(s, policy, permit, reserved, retained, sampled, now, late).1;
    permit.root == root
    && (r == Reserved
        || (r in {NotReserved(TemporaryBudgetExceeded), NotReserved(ProcessPressure)}
            && s.active.Some? && s.active.value.kind != kind))
  }

  /** The step ends the back-off of that kind of build for the root. */
  predicate Ends(policy: Policy, y: System, e: Event, root: Root, kind: BuildKind) {
    match e
    case TimeOut(ticket, now) =>
      var q := Waiter(y.state, ticket);
      q.Some? && q.value.root == root && q.value.kind != kind
    case ForgetRoot(r) => r == root
    case ReserveBytes(id, reserved, retained, sampled, now, late) =>
      IsShare(y, id)
      && ClaimEnds(y.state, policy, y.handles[id].permit, reserved, retained, sampled, now, late, root, kind)
    case OpenScope(read, scope, bytes, sampled, now, late) =>
      read in y.pending
      && var d := y.pending[read];
         var estimate := Estimate(scope, d.reserved, bytes);
         ClaimEnds(y.state, policy, d.permit, estimate, d.retained, sampled, now, late, root, kind)
    case RetainBytes(id, bytes, sampled, now, late) =>
      IsLease(y, id)
      && var h := y.handles[id];
         var claimed := SatAdd(h.parentRetained, bytes);
         SatAdd(bytes, h.parentReserved) <= policy.temporaryBytes
         && ClaimEnds(y.state, policy, h.permit, h.parentReserved, claimed, sampled, now, late, root, kind)
    case _ => false
  }

  lemma ClaimEndsIff(s: State, policy: Policy, permit: Permit, reserved: nat, retained: nat, sampled: nat, now: nat,
                     late: bool, root: Root, kind: BuildKind)
    requires HeldOff(s, root, kind)
    ensures HeldOff(Reserve(s, policy, permit, reserved, retained, sampled, now, late).0, root, kind)
      <==> !ClaimEnds(s, policy, permit, reserved, retained, sampled, now, late, root, kind)
  {
    ClaimDefers(s, policy, permit, reserved, retained, sampled, now, late, root);
  }

  lemma ClaimStepEndsIff(policy: Policy, y: System, e: Event, root: Root, kind: BuildKind)
    requires HeldOff(y.state, root, kind) && Claims(e)
    ensures HeldOff(Step(policy, y, e).state, root, kind) <==> !Ends(policy, y, e, root, kind)
  {
    match e
    case ReserveBytes(id, reserved, retained, sampled, now, late) =>
      if IsShare(y, id) {
        var permit := y.handles[id].permit;
        ClaimEndsIff(y.state, policy, permit, reserved, retained, sampled, now, late, root, kind);
      }
    case RetainBytes(id, bytes, sampled, now, late) =>
      if IsLease(y, id) {
        var h := y.handles[id];
        var claimed := SatAdd(h.parentRetained, bytes);
        ClaimEndsIff(y.state, policy, h.permit, h.parentReserved, claimed, sampled, now, late, root, kind);
      }
    case OpenScope(read, scope, bytes, sampled, now, late) =>
      if read in y.pending {
        var d := y.pending[read];
        var estimate := Estimate(scope, d.reserved, bytes);
        ClaimEndsIff(y.state, policy, d.permit, estimate, d.retained, sampled, now, late, root, kind);
      }
  }

  /**
   A kind of build that is held off is so after the next step if and only if that step is not
   one of the ending ones: a time-out of another kind of the root, its removal, an accepted
   claim for it, or a claim for it refused for memory while another kind is active.
   */
  lemma StepEndsIff(policy: Policy, y: System, e: Event, root: Root, kind: BuildKind)
    requires HeldOff(y.state, root, kind)
    ensures HeldOff(Step(policy, y, e).state, root, kind) <==> !Ends(policy, y, e, root, kind)
  {
    if Claims(e) {
      ClaimStepEndsIff(policy, y, e, root, kind);
    } else if OfCompaction(e) {
      CompactionDefersNothing(policy, y, e);
    } else if !e.ForgetRoot? && !e.TimeOut? {
      OthersDeferNothing(policy, y, e);
    }
  }

  ghost predicate HeldThroughout(policy: Policy, y: System, events: seq<Event>, root: Root, kind: BuildKind)
    decreases |events|
  {
    HeldOff(y.state, root, kind)
    && (events == [] || HeldThroughout(policy, Step(policy, y, events[0]), events[1..], root, kind))
  }

  ghost predicate NothingEnds(policy: Policy, y: System, events: seq<Event>, root: Root, kind: BuildKind)
    decreases |events|
  {
    events == []
    || (!Ends(policy, y, events[0], root, kind)
        && NothingEnds(policy, Step(policy, y, events[0]), events[1..], root, kind))
  }

  /** A kind stays held off all through a run if and only if no step of the run ends its back-off. */
  lemma {:induction false} HeldThroughoutIff(
    policy: Policy, y: System, events: seq<Event>, root: Root, kind: BuildKind)
    requires HeldOff(y.state, root, kind)
    ensures HeldThroughout(policy, y, events, root, kind) <==> NothingEnds(policy, y, events, root, kind)
    decreases |events|
  {
    if events != [] {
      StepEndsIff(policy, y, events[0], root, kind);
      if !Ends(policy, y, events[0], root, kind) {
        HeldThroughoutIff(policy, Step(policy, y, events[0]), events[1..], root, kind);
      }
    }
  }
}
