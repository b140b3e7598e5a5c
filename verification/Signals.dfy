/**
 Which tokens a step of the coordinator raises, who leaves the queue and who joins it, and
 what a grant and an opened scope consist of (build_coordinator.rs 417-579, 726-879): each
 told in terms of the state before the step, over every run.
 */
module Signals {
  import opened Basics
  import opened Admission
  import opened Ledger
  import opened CoordinatorRuns
  import opened Permits

  // ---------------------------------------------------------------- tokens

  /** A foreground build wants the slot that a compaction holds. */
  predicate Preempts(s: State, kind: BuildKind) {
    kind != NameCompaction && s.active.Some? && s.active.value.kind == NameCompaction
  }

  /** The step raises the token, whether it was up before or not. */
  ghost predicate Raises(s: State, e: Event, token: Token) {
    match e
    case ClearTheWay(kind) => !s.shuttingDown && Preempts(s, kind) && s.active.value.token == token
    case EnqueueBuild(_, kind, _) => !s.shuttingDown && Preempts(s, kind) && s.active.value.token == token
    case CancelToken(t) => t == token
    case ShutDown =>
      (s.active.Some? && s.active.value.token == token)
      || (exists q :: q in s.waiters && q.token == token)
      || (exists r :: r in s.compactions && s.compactions[r].token == Some(token))
    case ForgetRoot(root) =>
      (s.active.Some? && s.active.value.root == root && s.active.value.token == token)
      || (root in s.compactions && s.compactions[root].token == Some(token))
    case AskCompaction(root, epoch) =>
      !s.shuttingDown && root in s.compactions && s.compactions[root].workerRunning
      && s.compactions[root].latest < epoch && s.compactions[root].token == Some(token)
    case _ => false
  }

  lemma ShutdownRaises(s: State, token: Token)
    ensures token in Shutdown(s).cancelled <==> token in s.cancelled || Raises(s, ShutDown, token)
  {
    assert token in WaiterTokens(s.waiters) <==> exists q :: q in s.waiters && q.token == token;
    assert token in CurrentTokens(s.compactions)
      <==> exists r :: r in s.compactions && s.compactions[r].token == Some(token);
  }

  lemma RequestRaises(y: System, root: Root, epoch: nat, token: Token)
    ensures token in Asked(y, root, epoch).state.cancelled
       <==> token in y.state.cancelled || Raises(y.state, AskCompaction(root, epoch), token)
  {
  }

  lemma RemovalRaises(s: State, root: Root, token: Token)
    ensures token in RemoveRoot(s, root).cancelled <==> token in s.cancelled || Raises(s, ForgetRoot(root), token)
  {
  }

  lemma WorkersRaiseNothing(y: System, w: nat, retry: bool)
    ensures Begun(y, w).state.cancelled == y.state.cancelled
    ensures Ended(y, w, retry).state.cancelled == y.state.cancelled
  {
  }

  lemma ClaimsRaiseNothing(policy: Policy, y: System, e: Event)
    requires e.ReserveBytes? || e.OpenScope? || e.RetainBytes?
    ensures Step(policy, y, e).state.cancelled == y.state.cancelled
  {
    match e
    case ReserveBytes(id, reserved, retained, sampled, now, late) =>
      if IsShare(y, id) {
        ReserveFacts(y.state, policy, y.handles[id].permit, reserved, retained, sampled, now, late);
      }
    case RetainBytes(id, bytes, sampled, now, late) =>
      if IsLease(y, id) {
        var h := y.handles[id];
        var claimed := SatAdd(h.parentRetained, bytes);
        ReserveFacts(y.state, policy, h.permit, h.parentReserved, claimed, sampled, now, late);
      }
    case OpenScope(read, scope, bytes, sampled, now, late) =>
      if read in y.pending {
        var d := y.pending[read];
        ReserveFacts(y.state, policy, d.permit, Estimate(scope, d.reserved, bytes), d.retained, sampled, now, late);
      }
  }

  /** The events that neither raise a token by themselves nor speak of compactions or bytes. */
  predicate Mute(e: Event) {
    e.PollWaiter? || e.TimeOut? || e.NewToken? || e.ShareHandle? || e.DropHandle? || e.ReadLedger? || e.CloseScope?
  }

  lemma MuteRaiseNothing(policy: Policy, y: System, e: Event)
    requires Mute(e)
    ensures Step(policy, y, e).state.cancelled == y.state.cancelled
  {
  }

  /** A token is up after a step exactly when it was up before or the step is one that raises it. */
  lemma CancelledExactly(policy: Policy, y: System, e: Event, token: Token)
    ensures token in Step(policy, y, e).state.cancelled <==> token in y.state.cancelled || Raises(y.state, e, token)
  {
    if Mute(e) {
      MuteRaiseNothing(policy, y, e);
    } else if e.ReserveBytes? || e.OpenScope? || e.RetainBytes? {
      ClaimsRaiseNothing(policy, y, e);
    } else {
      match e
      case ShutDown => ShutdownRaises(y.state, token);
      case ForgetRoot(root) => RemovalRaises(y.state, root, token);
      case AskCompaction(root, epoch) => RequestRaises(y, root, epoch, token);
      case BeginCompaction(w) => WorkersRaiseNothing(y, w, false);
      case EndCompaction(w, retry) => WorkersRaiseNothing(y, w, retry);
      case _ =>
    }
  }

  /** Once up, a token stays up. */
  lemma {:induction false} StaysUp(policy: Policy, y: System, events: seq<Event>, token: Token)
    requires token in y.state.cancelled
    ensures token in Run(policy, y, events).state.cancelled
    decreases |events|
  {
    if events != [] {
      CancelledExactly(policy, y, events[0], token);
      StaysUp(policy, Step(policy, y, events[0]), events[1..], token);
    }
  }

  /** A foreground build is asked to be let in, or queues. */
  predicate ComesForward(s: State, e: Event) {
    !s.shuttingDown && (e.ClearTheWay? || e.EnqueueBuild?) && e.kind != NameCompaction
  }

  /**
   From the moment a foreground build comes forward while a compaction holds the slot, that
   compaction's token is up, and as long as it keeps the slot each of its reservations that
   looks at the token is refused and changes nothing.
   */
  lemma ForegroundComesFirst(policy: Policy, before: seq<Event>, e: Event, after: seq<Event>, id: nat,
                             reserved: nat, retained: nat, sampled: nat, now: nat)
    requires var s := Run(policy, START, before).state;
      ComesForward(s, e) && s.active.Some? && s.active.value.kind == NameCompaction
    ensures var s := Run(policy, START, before).state;
      var z := Run(policy, START, before + [e] + after);
      var claim := ReserveBytes(id, reserved, retained, sampled, now, false);
      s.active.value.token in z.state.cancelled
      && (IsShare(z, id) && z.handles[id].permit.ticket == s.active.value.ticket
          && Holder(z.state.active) == Holder(s.active) ==>
            Step(policy, z, claim) == z
            && Reserve(z.state, policy, z.handles[id].permit, reserved, retained, sampled, now, false)
               == (z.state, NotReserved(Cancelled)))
  {
    var y := Run(policy, START, before);
    var z := Run(policy, START, before + [e] + after);
    RunInTwo(policy, START, before + [e], after);
    RunInTwo(policy, START, before, [e]);
    assert [e][1..] == [];
    var forward := Step(policy, y, e);
    assert Run(policy, forward, []) == forward;
    CancelledExactly(policy, y, e, y.state.active.value.token);
    StaysUp(policy, forward, after, y.state.active.value.token);
    RunKeepsPermits(policy, START, before + [e] + after);
  }

  /** Another compaction, or a build that finds no compaction in the slot, cancels nothing. */
  lemma OthersAreLeftToRun(policy: Policy, y: System, e: Event)
    requires e.ClearTheWay? || e.EnqueueBuild?
    requires e.kind == NameCompaction || y.state.active.None? || y.state.active.value.kind != NameCompaction
    ensures Step(policy, y, e).state.cancelled == y.state.cancelled
    ensures Step(policy, y, e).state.cancellations == y.state.cancellations
  {
    assert forall t :: !Raises(y.state, e, t);
    forall t ensures t in Step(policy, y, e).state.cancelled <==> t in y.state.cancelled {
      CancelledExactly(policy, y, e, t);
    }
  }

  // ---------------------------------------------------------------- the queue

  /** What a waiting build hears when it looks. */
  lemma PollHears(s: State, ticket: Ticket, token: Token)
    ensures var (t, r) := Poll(s, ticket, token);
      (r == Refused(AcquireShuttingDown) <==> s.shuttingDown)
      && (r == Refused(AcquireCancelled) <==> !s.shuttingDown && token in s.cancelled)
      && (r.Granted? <==>
            !s.shuttingDown && token !in s.cancelled && s.active.None?
            && exists i :: 0 <= i < |s.waiters| && s.waiters[i].ticket == ticket && NextInLine(s, i))
      && (r.Granted? ==>
            exists i :: 0 <= i < |s.waiters| && s.waiters[i].ticket == ticket && NextInLine(s, i)
              && var q := s.waiters[i];
                 r.permit == Permit(ticket, q.root, q.token, q.kind)
                 && t.active == Some(ActiveBuild(ticket, q.root, q.kind, 0, 0, q.token))
                 && t.lastGrantedRoot == Some(q.root))
      && (!r.Granted? ==> t.active == s.active && t.lastGrantedRoot == s.lastGrantedRoot)
  {
    NextWaiterIsFair(s.waiters, s.lastGrantedRoot);
    var next := NextWaiterIndex(s.waiters, s.lastGrantedRoot);
    if next.Some? {
      assert NextInLine(s, next.value);
      forall i | 0 <= i < |s.waiters| && NextInLine(s, i) ensures i == next.value {
      }
    }
  }

  /** The first build of a root other than the last granted one, or the head when there is none. */
  predicate NextInLine(s: State, i: nat)
    requires i < |s.waiters|
  {
    if exists k :: 0 <= k < |s.waiters| && Some(s.waiters[k].root) != s.lastGrantedRoot
    then
      Some(s.waiters[i].root) != s.lastGrantedRoot
      && forall k :: 0 <= k < i ==> Some(s.waiters[k].root) == s.lastGrantedRoot
    else i == 0
  }

  ghost predicate Leaves(s: State, e: Event, q: QueuedBuild) {
    match e
    case PollWaiter(ticket, token) => q.ticket == ticket && Poll(s, ticket, token).1 != StillWaiting
    case TimeOut(ticket, _) => q.ticket == ticket
    case ForgetRoot(root) => q.root == root
    case _ => false
  }

  ghost predicate Joins(s: State, e: Event, q: QueuedBuild) {
    e.EnqueueBuild? && !s.shuttingDown && q == QueuedBuild(s.nextTicket + 1, e.root, e.kind, e.token)
  }

  ghost predicate QueueChanges(s: State, t: State, e: Event) {
    forall q :: q in t.waiters <==> (q in s.waiters && !Leaves(s, e, q)) || Joins(s, e, q)
  }

  lemma WithoutOne(waiters: seq<QueuedBuild>, i: nat, q: QueuedBuild)
    requires i < |waiters|
    requires forall j, k :: 0 <= j < k < |waiters| ==> waiters[j].ticket < waiters[k].ticket
    ensures q in Without(waiters, i) <==> q in waiters && q.ticket != waiters[i].ticket
  {
    if q in waiters && q.ticket != waiters[i].ticket {
      var k :| 0 <= k < |waiters| && waiters[k] == q;
      assert Without(waiters, i)[if k < i then k else k - 1] == q;
    }
    if q in Without(waiters, i) {
      var k :| 0 <= k < |Without(waiters, i)| && Without(waiters, i)[k] == q;
      assert waiters[if k < i then k else k + 1] == q;
    }
  }

  lemma RemovedOne(s: State, ticket: Ticket, q: QueuedBuild)
    requires QueueInv(s)
    ensures q in RemoveWaiter(s, ticket).waiters <==> q in s.waiters && q.ticket != ticket
  {
    FirstTicketFacts(s.waiters, ticket, 0);
    var i := FirstTicket(s.waiters, ticket, 0);
    if i < |s.waiters| {
      WithoutOne(s.waiters, i, q);
    }
  }

  lemma {:induction false} OtherRootsAre(waiters: seq<QueuedBuild>, root: Root, q: QueuedBuild)
    ensures q in OfOtherRoots(waiters, root) <==> q in waiters && q.root != root
  {
    if waiters != [] {
      OtherRootsAre(waiters[1..], root, q);
      assert waiters == [waiters[0]] + waiters[1..];
    }
  }

  lemma PollChangesQueue(s: State, ticket: Ticket, token: Token)
    requires QueueInv(s)
    ensures QueueChanges(s, Poll(s, ticket, token).0, PollWaiter(ticket, token))
  {
    var (t, r) := Poll(s, ticket, token);
    forall q ensures q in t.waiters <==> q in s.waiters && !(q.ticket == ticket && r != StillWaiting) {
      if r.Granted? {
        WithoutOne(s.waiters, NextWaiterIndex(s.waiters, s.lastGrantedRoot).value, q);
      } else {
        RemovedOne(s, ticket, q);
      }
    }
  }

  lemma TimeOutChangesQueue(s: State, ticket: Ticket, now: nat)
    requires QueueInv(s)
    ensures QueueChanges(s, Timeout(s, ticket, now), TimeOut(ticket, now))
  {
    forall q ensures q in Timeout(s, ticket, now).waiters <==> q in s.waiters && q.ticket != ticket {
      RemovedOne(s, ticket, q);
    }
  }

  lemma RemovalChangesQueue(s: State, root: Root)
    ensures QueueChanges(s, RemoveRoot(s, root), ForgetRoot(root))
  {
    forall q ensures q in RemoveRoot(s, root).waiters <==> q in s.waiters && q.root != root {
      OtherRootsAre(s.waiters, root, q);
    }
  }

  lemma EnqueueChangesQueue(s: State, root: Root, kind: BuildKind, token: Token)
    ensures QueueChanges(s, Enqueue(s, root, kind, token).0, EnqueueBuild(root, kind, token))
  {
  }

  lemma StepChangesQueue(policy: Policy, y: System, e: Event)
    requires QueueInv(y.state)
    ensures QueueChanges(y.state, Step(policy, y, e).state, e)
  {
    match e
    case EnqueueBuild(root, kind, token) => EnqueueChangesQueue(y.state, root, kind, token);
    case PollWaiter(ticket, token) => PollChangesQueue(y.state, ticket, token);
    case TimeOut(ticket, now) => TimeOutChangesQueue(y.state, ticket, now);
    case ForgetRoot(root) => RemovalChangesQueue(y.state, root);
    case _ => RestKeepsQueue(policy, y, e);
  }

  /**
   In every run the queue ascends by ticket, and a step changes it as told: a build joins
   with a ticket above all others, and leaves when it hears an answer, times out, or its root
   is removed. As the order is that of the tickets, this determines the queue.
   */
  lemma QueueExactly(policy: Policy, before: seq<Event>, e: Event)
    ensures var y := Run(policy, START, before);
      var t := Step(policy, y, e).state;
      QueueChanges(y.state, t, e)
      && (forall i, j :: 0 <= i < j < |t.waiters| ==> t.waiters[i].ticket < t.waiters[j].ticket)
  {
    RunKeepsPermits(policy, START, before);
    StepMovesQueue(policy, Run(policy, START, before), e);
    StepChangesQueue(policy, Run(policy, START, before), e);
  }

  // ---------------------------------------------------------------- shutdown

  lemma StaysShut(policy: Policy, y: System, e: Event)
    requires y.state.shuttingDown
    ensures Step(policy, y, e).state.shuttingDown
  {
    if OfCompaction(e) {
      ShutThroughCompaction(policy, y, e);
    } else if e.ReserveBytes? || e.OpenScope? || e.RetainBytes? {
      ShutThroughClaim(policy, y, e);
    }
  }

  lemma ShutThroughCompaction(policy: Policy, y: System, e: Event)
    requires y.state.shuttingDown && OfCompaction(e)
    ensures Step(policy, y, e).state.shuttingDown
  {
  }

  lemma ShutThroughClaim(policy: Policy, y: System, e: Event)
    requires y.state.shuttingDown && (e.ReserveBytes? || e.OpenScope? || e.RetainBytes?)
    ensures Step(policy, y, e).state.shuttingDown
  {
  }

  /** After the shutdown nothing is granted and nothing queues, in any continuation. */
  lemma {:induction false} NothingAfterShutdown(policy: Policy, y: System, events: seq<Event>)
    requires y.state.shuttingDown
    ensures Grants(policy, y, events) == []
    ensures forall q :: q in Run(policy, y, events).state.waiters ==> q in y.state.waiters
    decreases |events|
  {
    if events != [] {
      var z := Step(policy, y, events[0]);
      StaysShut(policy, y, events[0]);
      ShutQueueShrinks(policy, y, events[0]);
      NothingAfterShutdown(policy, z, events[1..]);
    }
  }

  lemma ShutdownIsFinal(policy: Policy, y: System, events: seq<Event>)
    ensures Grants(policy, y, [ShutDown] + events) == []
    ensures forall q :: q in Run(policy, y, [ShutDown] + events).state.waiters ==> q in y.state.waiters
  {
    assert ([ShutDown] + events)[1..] == events;
    NothingAfterShutdown(policy, Step(policy, y, ShutDown), events);
  }

  lemma ShutQueueShrinks(policy: Policy, y: System, e: Event)
    requires y.state.shuttingDown
    ensures forall q :: q in Step(policy, y, e).state.waiters ==> q in y.state.waiters
  {
    if e.ForgetRoot? {
      forall q | q in OfOtherRoots(y.state.waiters, e.root) ensures q in y.state.waiters {
        OtherRootsAre(y.state.waiters, e.root, q);
      }
    } else if e.TimeOut? || e.PollWaiter? {
    } else {
      if !e.EnqueueBuild? {
        RestKeepsQueue(policy, y, e);
      }
    }
  }

  // ---------------------------------------------------------------- scopes

  /**
   A phase makes its bytes the whole estimate, a nested scope adds its bytes to that of its
   parent. It opens exactly when that estimate would be accepted; then both numbers of the
   parent are remembered and the retained bytes stay.
   */
  lemma ScopeOpens(s: State, policy: Policy, permit: Permit, scope: Scope, parentReserved: nat, parentRetained: nat,
                   bytes: nat, sampled: nat, now: nat, late: bool)
    ensures var (t, r) := Open(s, policy, permit, scope, parentReserved, parentRetained, bytes, sampled, now, late);
      var estimate := if scope == Phase then bytes else Min(parentReserved + bytes, USIZE_MAX);
      var live := if sampled >= parentRetained then sampled else parentRetained;
      (r.Leased? <==>
        (permit.token !in s.cancelled || late) && s.active.Some? && s.active.value.ticket == permit.ticket
        && estimate <= policy.temporaryBytes
        && (policy.targetBytes >= USIZE_MAX || live + estimate + policy.headroomBytes <= policy.targetBytes))
      && (r.Leased? ==>
            t.active == Some(s.active.value.(reserved := estimate, retained := parentRetained))
            && r == Leased(ReservationLease(permit, parentReserved, parentRetained), bytes))
      && (r.NotLeased? ==> t.active == s.active)
  {
  }

  /** Retaining replaces the scope's bytes by `bytes` over what its parent retained, at the parent's estimate. */
  lemma RetainSettles(s: State, policy: Policy, lease: ReservationLease, bytes: nat, sampled: nat, now: nat, late: bool)
    ensures var (t, r) := Retain(s, policy, lease, bytes, sampled, now, late);
      var retained := Min(lease.parentRetained + bytes, USIZE_MAX);
      var live := if sampled >= retained then sampled else retained;
      (r == Reserved <==>
        Min(lease.parentReserved + bytes, USIZE_MAX) <= policy.temporaryBytes
        && lease.parentReserved <= policy.temporaryBytes
        && (lease.permit.token !in s.cancelled || late) && Holds(s, lease.permit.ticket)
        && (policy.targetBytes >= USIZE_MAX
            || live + lease.parentReserved + policy.headroomBytes <= policy.targetBytes))
      && (r == Reserved ==>
            t.active == Some(s.active.value.(reserved := lease.parentReserved, retained := retained)))
      && (r != Reserved ==> t.active == s.active)
      && (Min(lease.parentReserved + bytes, USIZE_MAX) > policy.temporaryBytes ==>
            r == NotReserved(TemporaryBudgetExceeded) && t == s)
  {
  }

  // ---------------------------------------------------------------- counters

  /** Refusals for memory are counted, and so is every sample that was due and came back empty. */
  lemma ClaimCounts(s: State, policy: Policy, permit: Permit, reserved: nat, retained: nat, sampled: nat, now: nat,
                    late: bool)
    ensures var (t, r) := Reserve(s, policy, permit, reserved, retained, sampled, now, late);
      var denied := r in {NotReserved(TemporaryBudgetExceeded), NotReserved(ProcessPressure)};
      var missed := sampled == 0 && r in {Reserved, NotReserved(ProcessPressure)};
      t.budgetDenials == (if denied then SatAdd(s.budgetDenials, 1) else s.budgetDenials)
      && t.samplingUnavailable == (if missed then SatAdd(s.samplingUnavailable, 1) else s.samplingUnavailable)
      && t.peakReserved == (if r == Reserved && reserved > s.peakReserved then reserved else s.peakReserved)
      && t.peakRetained == (if r == Reserved && retained > s.peakRetained then retained else s.peakRetained)
      && t.cancellations == s.cancellations
  {
  }

  /** A refusal names the first reason that applies. */
  lemma RefusalReason(s: State, policy: Policy, permit: Permit, reserved: nat, retained: nat, sampled: nat, now: nat,
                      late: bool)
    ensures var r := Reserve(s, policy, permit, reserved, retained, sampled, now, late).1;
      var looked := permit.token in s.cancelled && !late;
      var live := s.active.Some? && s.active.value.ticket == permit.ticket;
      (r == NotReserved(Cancelled) <==> looked)
      && (r == NotReserved(StalePermit) <==> !looked && !live)
      && (r == NotReserved(TemporaryBudgetExceeded) <==> !looked && live && reserved > policy.temporaryBytes)
      && (r == NotReserved(ProcessPressure) <==>
            !looked && live && reserved <= policy.temporaryBytes && policy.targetBytes < USIZE_MAX
            && (if sampled >= retained then sampled else retained) + reserved + policy.headroomBytes
               > policy.targetBytes)
  {
    PressureIsExact(policy, reserved, retained, sampled);
  }

  /** One cancellation is counted for a compaction that is told to stop, and one for a wait that ends cancelled. */
  lemma CancellationsExactly(policy: Policy, y: System, e: Event)
    ensures var s, t := y.state, Step(policy, y, e).state;
      var counted :=
        ((e.ClearTheWay? || e.EnqueueBuild?) && !s.shuttingDown && Preempts(s, e.kind)
         && s.active.value.token !in s.cancelled)
        || (e.PollWaiter? && !s.shuttingDown && e.token in s.cancelled);
      t.cancellations == if counted then SatAdd(s.cancellations, 1) else s.cancellations
  {
    if e.ReserveBytes? || e.OpenScope? || e.RetainBytes? {
      ClaimsCountNoCancellation(policy, y, e);
    } else if OfCompaction(e) {
      CompactionsCountNothing(policy, y, e);
    }
  }

  lemma ClaimsCountNoCancellation(policy: Policy, y: System, e: Event)
    requires e.ReserveBytes? || e.OpenScope? || e.RetainBytes?
    ensures Step(policy, y, e).state.cancellations == y.state.cancellations
  {
  }

  lemma CompactionsCountNothing(policy: Policy, y: System, e: Event)
    requires OfCompaction(e)
    ensures Step(policy, y, e).state.cancellations == y.state.cancellations
  {
  }
}
