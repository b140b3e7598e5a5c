/**
 The build coordinator itself (build_coordinator.rs): one slot, a queue, a memory
 ledger and a compaction table, updated in place. Every method is one critical
 section, except the reservation methods, which run their two sections in a row.
 */
module Coordinator {
  import opened Basics
  import opened Admission
  import opened Ledger

  lemma Overwritten<K, V>(m: map<K, V>, k: K, first: V, second: V)
    ensures m[k := first][k := second] == m[k := second]
    ensures m[k := first] - {k} == m - {k}
    ensures k in m && m[k] == first ==> m[k := first] == m
  {
  }

  lemma {:induction false} OtherRootsConcat(a: seq<QueuedBuild>, b: seq<QueuedBuild>, root: Root)
    ensures OfOtherRoots(a + b, root) == OfOtherRoots(a, root) + OfOtherRoots(b, root)
  {
    if a == [] {
      assert a + b == b;
    } else {
      assert (a + b)[0] == a[0] && (a + b)[1..] == a[1..] + b;
      OtherRootsConcat(a[1..], b, root);
    }
  }

  lemma OtherRootsSnoc(waiters: seq<QueuedBuild>, i: nat, root: Root)
    requires i < |waiters|
    ensures OfOtherRoots(waiters[..i + 1], root)
         == OfOtherRoots(waiters[..i], root) + if waiters[i].root != root then [waiters[i]] else []
  {
    assert waiters[..i + 1] == waiters[..i] + [waiters[i]] && [waiters[i]][1..] == [];
    OtherRootsConcat(waiters[..i], [waiters[i]], root);
  }

  class BuildCoordinator {
    const policy: Policy
    var nextTicket: Ticket
    var active: Option<ActiveBuild>
    var waiters: seq<QueuedBuild>
    var lastGrantedRoot: Option<Root>
    var deferred: map<Root, DeferredBuild>
    var compactions: map<Root, CompactionState>
    var shuttingDown: bool
    var peakActive: nat
    var peakReserved: nat
    var peakRetained: nat
    var samplingUnavailable: nat
    var budgetDenials: nat
    var cancellations: nat
    var cancelled: set<Token>
    var nextToken: Token

    function View(): State
      reads this
    {
      State(nextTicket, active, waiters, lastGrantedRoot, deferred, compactions, shuttingDown, peakActive,
            peakReserved, peakRetained, samplingUnavailable, budgetDenials, cancellations, cancelled, nextToken)
    }

    constructor (policy: Policy)
      ensures View() == INITIAL && this.policy == policy
    {
      this.policy := policy;
      nextTicket, active, waiters, lastGrantedRoot := 0, None, [], None;
      deferred, compactions, shuttingDown := map[], map[], false;
      peakActive, peakReserved, peakRetained := 0, 0, 0;
      samplingUnavailable, budgetDenials, cancellations := 0, 0, 0;
      cancelled, nextToken := {}, 0;
    }

    // -------------------------------------------------------------- admission

    method CancelStaleCompaction(kind: BuildKind)
      modifies this
      ensures View() == MakeWay(old(View()), kind)
    {
      if kind != NameCompaction && active.Some? && active.value.kind == NameCompaction
         && active.value.token !in cancelled
      {
        cancelled := cancelled + {active.value.token};
        cancellations := SatAdd(cancellations, 1);
      }
    }

    /** Before a build waits for its back-off: it is refused, or a compaction makes way. */
    method ClearTheWay(kind: BuildKind) returns (refused: bool)
      modifies this
      ensures View() == LookIn(old(View()), kind)
      ensures refused <==> kind != NameCompaction && old(shuttingDown)
    {
      if kind == NameCompaction {
        return false;
      }
      if shuttingDown {
        return true;
      }
      CancelStaleCompaction(kind);
      refused := false;
    }

    method EnqueueBuild(root: Root, kind: BuildKind, token: Token) returns (r: Enqueued)
      modifies this
      ensures (View(), r) == Enqueue(old(View()), root, kind, token)
    {
      if shuttingDown {
        return NotQueued(AcquireShuttingDown);
      }
      CancelStaleCompaction(kind);
      nextTicket := nextTicket + 1;
      waiters := waiters + [QueuedBuild(nextTicket, root, kind, token)];
      r := Waiting(nextTicket);
    }

    method SelectWaiter() returns (r: Option<nat>)
      ensures r == NextWaiterIndex(waiters, lastGrantedRoot)
    {
      var i := 0;
      while i < |waiters| && Some(waiters[i].root) == lastGrantedRoot
        invariant i <= |waiters|
        invariant FirstOther(waiters, lastGrantedRoot, i) == FirstOther(waiters, lastGrantedRoot, 0)
      {
        i := i + 1;
      }
      r := if i < |waiters| then Some(i) else if waiters != [] then Some(0) else None;
    }

    method TakeWaiter(ticket: Ticket) returns (r: Option<QueuedBuild>)
      modifies this`waiters
      ensures View() == Admission.RemoveWaiter(old(View()), ticket)
      ensures var i := FirstTicket(old(waiters), ticket, 0);
        r == if i < |old(waiters)| then Some(old(waiters)[i]) else None
    {
      var i := 0;
      while i < |waiters| && waiters[i].ticket != ticket
        invariant i <= |waiters|
        invariant FirstTicket(waiters, ticket, i) == FirstTicket(waiters, ticket, 0)
      {
        i := i + 1;
      }
      if i < |waiters| {
        r := Some(waiters[i]);
        waiters := waiters[..i] + waiters[i + 1..];
      } else {
        r := None;
      }
    }

    method GrantWaiter(index: nat) returns (permit: Permit)
      requires index < |waiters|
      modifies this
      ensures (View(), permit) == Grant(old(View()), index)
    {
      var queued := waiters[index];
      waiters := waiters[..index] + waiters[index + 1..];
      lastGrantedRoot := Some(queued.root);
      active := Some(ActiveBuild(queued.ticket, queued.root, queued.kind, 0, 0, queued.token));
      peakActive := if peakActive <= 1 then 1 else peakActive;
      permit := Permit(queued.ticket, queued.root, queued.token, queued.kind);
    }

    method PollWaiter(ticket: Ticket, token: Token) returns (r: Polled)
      modifies this
      ensures (View(), r) == Poll(old(View()), ticket, token)
    {
      if shuttingDown {
        var _ := TakeWaiter(ticket);
        return Refused(AcquireShuttingDown);
      }
      if token in cancelled {
        var _ := TakeWaiter(ticket);
        cancellations := SatAdd(cancellations, 1);
        return Refused(AcquireCancelled);
      }
      if active.None? {
        var index := SelectWaiter();
        if index.Some? && waiters[index.value].ticket == ticket {
          var permit := GrantWaiter(index.value);
          return Granted(permit);
        }
      }
      r := StillWaiting;
    }

    method TimeOut(ticket: Ticket, now: nat)
      modifies this
      ensures View() == Timeout(old(View()), ticket, now)
    {
      var taken := TakeWaiter(ticket);
      if taken.Some? {
        deferred := deferred[taken.value.root := DeferredBuild(taken.value.kind, 0, now + DEFERRED_RETRY_BACKOFF)];
      }
    }

    method ReleaseSlot(ticket: Ticket)
      modifies this`active
      ensures View() == Release(old(View()), ticket)
    {
      if active.Some? && active.value.ticket == ticket {
        active := None;
      }
    }

    method ShutDown()
      modifies this
      ensures View() == Shutdown(old(View()))
    {
      shuttingDown := true;
      if active.Some? {
        cancelled := cancelled + {active.value.token};
      }
      ghost var before := cancelled;
      var i := 0;
      while i < |waiters|
        invariant i <= |waiters|
        invariant unchanged(this`active, this`waiters, this`compactions)
        invariant View() == old(View()).(shuttingDown := true, cancelled := before + WaiterTokens(waiters[..i]))
      {
        assert waiters[..i + 1] == waiters[..i] + [waiters[i]];
        cancelled := cancelled + {waiters[i].token};
        i := i + 1;
      }
      assert waiters[..i] == waiters;
      CancelCompactions();
    }

    method CancelCompactions()
      modifies this`cancelled
      ensures cancelled == old(cancelled) + CurrentTokens(compactions)
    {
      var rest := compactions.Keys;
      while rest != {}
        invariant rest <= compactions.Keys
        invariant forall t :: t in cancelled <==>
          t in old(cancelled) || exists r :: r in compactions.Keys - rest && compactions[r].token == Some(t)
      {
        var root :| root in rest;
        if compactions[root].token.Some? {
          cancelled := cancelled + {compactions[root].token.value};
        }
        rest := rest - {root};
      }
    }

    method RemoveWorkspaceRoot(root: Root)
      modifies this
      ensures View() == RemoveRoot(old(View()), root)
    {
      if active.Some? && active.value.root == root {
        cancelled := cancelled + {active.value.token};
      }
      KeepOtherRoots(root);
      deferred := deferred - {root};
      RemoveCompaction(root);
    }

    method RemoveCompaction(root: Root)
      modifies this`cancelled, this`compactions
      ensures View() == DropCompaction(old(View()), root)
    {
      if root in compactions {
        var compaction := compactions[root];
        compactions := compactions - {root};
        if compaction.token.Some? {
          cancelled := cancelled + {compaction.token.value};
        }
      } else {
        assert compactions - {root} == compactions;
      }
    }

    method KeepOtherRoots(root: Root)
      modifies this`waiters
      ensures waiters == OfOtherRoots(old(waiters), root)
    {
      var queue, kept, i := waiters, [], 0;
      assert queue[..0] == [];
      while i < |queue|
        invariant i <= |queue| && kept == OfOtherRoots(queue[..i], root)
      {
        OtherRootsSnoc(queue, i, root);
        if queue[i].root != root {
          kept := kept + [queue[i]];
        }
        i := i + 1;
      }
      assert queue[..i] == queue;
      waiters := kept;
    }

    // -------------------------------------------------------------- the memory ledger

    method Deny(permit: Permit, requested: nat, now: nat)
      requires active.Some?
      modifies this
      ensures View() == Admission.Deny(old(View()), permit, requested, now)
    {
      budgetDenials := SatAdd(budgetDenials, 1);
      deferred := deferred[permit.root := DeferredBuild(active.value.kind, requested, now + DEFERRED_RETRY_BACKOFF)];
    }

    /** The locked part of `reserve`. */
    method ClaimBytes(permit: Permit, reserved: nat, retained: nat, sampled: nat, now: nat) returns (r: Reservation)
      modifies this
      ensures (View(), r) == Claim(old(View()), policy, permit, reserved, retained, sampled, now)
    {
      if active.None? || active.value.ticket != permit.ticket {
        return NotReserved(StalePermit);
      }
      if reserved > policy.temporaryBytes {
        Deny(permit, reserved, now);
        return NotReserved(TemporaryBudgetExceeded);
      }
      CountMissingSample(sampled);
      var live := if sampled >= retained then sampled else retained;
      if SatAdd(SatAdd(live, reserved), policy.headroomBytes) > policy.targetBytes {
        Deny(permit, reserved, now);
        return NotReserved(ProcessPressure);
      }
      Accept(permit, reserved, retained);
      r := Reserved;
    }

    /** The call as a whole, when nobody raises the token between its look at it and the lock. */
    method ReserveBytes(permit: Permit, reserved: nat, retained: nat, sampled: nat, now: nat) returns (r: Reservation)
      modifies this
      ensures (View(), r) == Reserve(old(View()), policy, permit, reserved, retained, sampled, now, false)
    {
      if permit.token in cancelled {
        return NotReserved(Cancelled);
      }
      r := ClaimBytes(permit, reserved, retained, sampled, now);
    }

    method CountMissingSample(sampled: nat)
      modifies this`samplingUnavailable
      ensures View() == NoteSample(old(View()), sampled)
    {
      if sampled == 0 {
        samplingUnavailable := SatAdd(samplingUnavailable, 1);
      }
    }

    method Accept(permit: Permit, reserved: nat, retained: nat)
      requires active.Some?
      modifies this
      ensures View() == Accepted(old(View()), permit, reserved, retained)
    {
      active := Some(active.value.(reserved := reserved, retained := retained));
      peakReserved := if reserved > peakReserved then reserved else peakReserved;
      peakRetained := if retained > peakRetained then retained else peakRetained;
      deferred := deferred - {permit.root};
    }

    method OpenScope(permit: Permit, scope: Scope, bytes: nat, sampled: nat, now: nat) returns (r: Leased)
      modifies this
      ensures (View(), r) == ReadThenOpen(old(View()), policy, permit, scope, bytes, sampled, now)
    {
      if active.None? || active.value.ticket != permit.ticket {
        return NotLeased(StalePermit);
      }
      var parentReserved, parentRetained := active.value.reserved, active.value.retained;
      var estimate := if scope == Phase then bytes else SatAdd(parentReserved, bytes);
      var claimed := ReserveBytes(permit, estimate, parentRetained, sampled, now);
      if claimed.NotReserved? {
        return NotLeased(claimed.error);
      }
      r := Leased(ReservationLease(permit, parentReserved, parentRetained), bytes);
    }

    method RetainBytes(lease: ReservationLease, bytes: nat, sampled: nat, now: nat) returns (r: Reservation)
      modifies this
      ensures (View(), r) == Retain(old(View()), policy, lease, bytes, sampled, now, false)
    {
      if SatAdd(bytes, lease.parentReserved) > policy.temporaryBytes {
        return NotReserved(TemporaryBudgetExceeded);
      }
      r := ReserveBytes(lease.permit, lease.parentReserved, SatAdd(lease.parentRetained, bytes), sampled, now);
    }

    method CloseScope(lease: ReservationLease)
      modifies this`active
      ensures View() == Restore(old(View()), lease.permit.ticket, lease.parentReserved, lease.parentRetained)
    {
      if active.Some? && active.value.ticket == lease.permit.ticket {
        active := Some(active.value.(reserved := lease.parentReserved, retained := lease.parentRetained));
      }
    }

    method OpenScopeUpTo(permit: Permit, preferred: nat, minimum: nat, sampler: nat -> nat, clock: nat -> nat)
      returns (r: Leased)
      modifies this
      ensures (View(), r) == ReserveScopedUpTo(old(View()), policy, permit, preferred, minimum, sampler, clock)
    {
      if active.None? || active.value.ticket != permit.ticket {
        return NotLeased(StalePermit);
      }
      var left := SatSub(policy.temporaryBytes, active.value.reserved);
      var bytes := if preferred <= left then preferred else left;
      if bytes < minimum {
        return NotLeased(TemporaryBudgetExceeded);
      }
      ghost var offer := bytes;
      var attempt := 0;
      while true
        invariant minimum <= bytes
        invariant Negotiate(View(), policy, permit, bytes, minimum, sampler, clock, attempt)
               == Negotiate(old(View()), policy, permit, offer, minimum, sampler, clock, 0)
        decreases bytes
      {
        r := OpenScope(permit, Nested, bytes, sampler(attempt), clock(attempt));
        if r != NotLeased(ProcessPressure) || bytes <= minimum {
          return;
        }
        bytes := Smaller(bytes, minimum);
        attempt := attempt + 1;
      }
    }

    // -------------------------------------------------------------- compaction

    method Request(root: Root, epoch: nat) returns (r: CompactionRequest)
      modifies this
      ensures (View(), r) == RequestCompaction(old(View()), root, epoch)
    {
      if shuttingDown {
        return IgnoredStale;
      }
      if root !in compactions {
        compactions := compactions[root := NO_COMPACTION];
      }
      var compaction := compactions[root];
      Overwritten(old(compactions), root, compaction, compaction);
      if epoch <= compaction.latest {
        return IgnoredStale;
      }
      Overwritten(old(compactions), root, compaction, compaction.(latest := epoch, workerRunning := true));
      compactions := compactions[root := compaction.(latest := epoch, workerRunning := true)];
      if compaction.workerRunning {
        if compaction.token.Some? {
          cancelled := cancelled + {compaction.token.value};
        }
        r := UpdatedPending;
      } else {
        r := StartWorker;
      }
    }

    method BeginNext(root: Root) returns (r: Option<(nat, Token)>)
      modifies this
      ensures (View(), r) == BeginNextCompaction(old(View()), root)
    {
      if root !in compactions {
        return None;
      }
      var compaction := compactions[root];
      if compaction.current == Some(compaction.latest) {
        return None;
      }
      var token := nextToken;
      nextToken := nextToken + 1;
      compactions := compactions[root := compaction.(current := Some(compaction.latest), token := Some(token))];
      r := Some((compaction.latest, token));
    }

    method Finish(root: Root, epoch: nat) returns (again: bool)
      modifies this
      ensures (View(), again) == FinishCompaction(old(View()), root, epoch)
    {
      if root !in compactions {
        return false;
      }
      var compaction := compactions[root];
      Overwritten(compactions, root, ClearCurrent(compaction, epoch), compaction);
      if compaction.current == Some(epoch) {
        compaction := compaction.(current := None, token := None);
        compactions := compactions[root := compaction];
      }
      if compaction.latest > epoch {
        again := true;
      } else {
        compactions := compactions - {root};
        again := false;
      }
    }

    method Retry(root: Root, epoch: nat) returns (again: bool)
      modifies this
      ensures (View(), again) == RetryCompaction(old(View()), root, epoch)
    {
      if shuttingDown || root !in compactions {
        return false;
      }
      var compaction := compactions[root];
      Overwritten(compactions, root, ClearCurrent(compaction, epoch), compaction);
      if compaction.current == Some(epoch) {
        compactions := compactions[root := compaction.(current := None, token := None)];
      }
      again := true;
    }
  }

  // ---------------------------------------------------------------- shared permits

  /** The reference-counted half of a permit; the slot is released with its last share. */
  class PermitLease {
    const coordinator: BuildCoordinator
    const permit: Permit
    var shares: nat

    constructor (coordinator: BuildCoordinator, permit: Permit)
      ensures this.coordinator == coordinator && this.permit == permit && shares == 1
    {
      this.coordinator := coordinator;
      this.permit := permit;
      shares := 1;
    }

    /** `clone`, `inherit`, and the copy inside a reservation lease. */
    method Share()
      modifies this
      ensures shares == old(shares) + 1
    {
      shares := shares + 1;
    }

    method Drop()
      requires shares > 0
      modifies this, coordinator`active
      ensures shares == old(shares) - 1
      ensures coordinator.View()
           == if shares == 0 then Release(old(coordinator.View()), permit.ticket) else old(coordinator.View())
    {
      shares := shares - 1;
      if shares == 0 {
        coordinator.ReleaseSlot(permit.ticket);
      }
    }
  }
}
