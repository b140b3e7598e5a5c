/**
 The state of the build coordinator and each of its critical sections as a step
 on that state (build_coordinator.rs). One step is what the source does while it
 holds the state mutex once.

 A cancellation token is a number; `cancelled` is the set of tokens whose shared
 flag is up. Tickets and epochs do not wrap. Time is a number of milliseconds.
 */
module Admission {
  import opened Basics

  type Root = string
  type Token = nat
  type Ticket = nat

  const DEFERRED_RETRY_BACKOFF: nat := 2000

  datatype BuildKind =
    | FullIndex | DirtyIndex | ReadModel | NameCompaction
    | ProjectContext | WorkspaceSemantics | CliIndex | CliMemory

  datatype Policy = Policy(temporaryBytes: nat, targetBytes: nat, headroomBytes: nat)

  datatype ActiveBuild =
    ActiveBuild(ticket: Ticket, root: Root, kind: BuildKind, reserved: nat, retained: nat, token: Token)

  datatype QueuedBuild = QueuedBuild(ticket: Ticket, root: Root, kind: BuildKind, token: Token)

  datatype DeferredBuild = DeferredBuild(kind: BuildKind, requestedBytes: nat, retryAfter: nat)

  datatype CompactionState = CompactionState(
    workerRunning: bool, current: Option<nat>, latest: nat, token: Option<Token>)

  datatype State = State(
    nextTicket: Ticket,
    active: Option<ActiveBuild>,
    waiters: seq<QueuedBuild>,
    lastGrantedRoot: Option<Root>,
    deferred: map<Root, DeferredBuild>,
    compactions: map<Root, CompactionState>,
    shuttingDown: bool,
    peakActive: nat,
    peakReserved: nat,
    peakRetained: nat,
    samplingUnavailable: nat,
    budgetDenials: nat,
    cancellations: nat,
    cancelled: set<Token>,
    nextToken: Token)

  const INITIAL := State(0, None, [], None, map[], map[], false, 0, 0, 0, 0, 0, 0, {}, 0)

  const NO_COMPACTION := CompactionState(false, None, 0, None)

  function CompactionOf(s: State, root: Root): CompactionState {
    if root in s.compactions then s.compactions[root] else NO_COMPACTION
  }

  /** What a caller holds: the ticket, root and token of the build it was granted. */
  datatype Permit = Permit(ticket: Ticket, root: Root, token: Token, stage: BuildKind)

  datatype AcquireError = AcquireCancelled | AcquireDeferred | AcquireShuttingDown

  datatype Enqueued = Waiting(ticket: Ticket) | NotQueued(error: AcquireError)

  datatype Polled = Granted(permit: Permit) | StillWaiting | Refused(error: AcquireError)

  datatype ReservationError = Cancelled | TemporaryBudgetExceeded | ProcessPressure | StalePermit

  datatype Reservation = Reserved | NotReserved(error: ReservationError)

  datatype CompactionRequest = StartWorker | UpdatedPending | IgnoredStale

  // ---------------------------------------------------------------- admission

  /** A foreground build asks a running compaction to stop. */
  function MakeWay(s: State, kind: BuildKind): State {
    if kind != NameCompaction && s.active.Some? && s.active.value.kind == NameCompaction
       && s.active.value.token !in s.cancelled
    then s.(cancelled := s.cancelled + {s.active.value.token}, cancellations := SatAdd(s.cancellations, 1))
    else s
  }

  /** The first look of a build that wants in; during shutdown it goes no further. */
  function LookIn(s: State, kind: BuildKind): State {
    if s.shuttingDown then s else MakeWay(s, kind)
  }

  /** How long a build of this root and kind has to hold off before it may queue. */
  function RetryAfter(s: State, root: Root, kind: BuildKind): Option<nat> {
    if root in s.deferred && s.deferred[root].kind == kind then Some(s.deferred[root].retryAfter) else None
  }

  function Enqueue(s: State, root: Root, kind: BuildKind, token: Token): (State, Enqueued) {
    if s.shuttingDown then (s, NotQueued(AcquireShuttingDown))
    else
      var t := MakeWay(s, kind);
      var ticket := t.nextTicket + 1;
      (t.(nextTicket := ticket, waiters := t.waiters + [QueuedBuild(ticket, root, kind, token)]), Waiting(ticket))
  }

  /** The first position at or after `from` whose root is not the last granted one. */
  function FirstOther(waiters: seq<QueuedBuild>, last: Option<Root>, from: nat): (i: nat)
    requires from <= |waiters|
    ensures from <= i <= |waiters|
    decreases |waiters| - from
  {
    if from == |waiters| || Some(waiters[from].root) != last then from
    else FirstOther(waiters, last, from + 1)
  }

  /** The build to grant next: another root if one waits, else the oldest. */
  function NextWaiterIndex(waiters: seq<QueuedBuild>, last: Option<Root>): (r: Option<nat>)
    ensures r.Some? ==> r.value < |waiters|
  {
    var i := FirstOther(waiters, last, 0);
    if i < |waiters| then Some(i) else if waiters != [] then Some(0) else None
  }

  /** The first position at or after `from` that holds the ticket. */
  function FirstTicket(waiters: seq<QueuedBuild>, ticket: Ticket, from: nat): (i: nat)
    requires from <= |waiters|
    ensures from <= i <= |waiters|
    decreases |waiters| - from
  {
    if from == |waiters| || waiters[from].ticket == ticket then from
    else FirstTicket(waiters, ticket, from + 1)
  }

  function Without<T>(s: seq<T>, i: nat): seq<T>
    requires i < |s|
  {
    s[..i] + s[i + 1..]
  }

  function RemoveWaiter(s: State, ticket: Ticket): State {
    var i := FirstTicket(s.waiters, ticket, 0);
    if i < |s.waiters| then s.(waiters := Without(s.waiters, i)) else s
  }

  function Grant(s: State, index: nat): (State, Permit)
    requires index < |s.waiters|
  {
    var q := s.waiters[index];
    (s.(waiters := Without(s.waiters, index),
        lastGrantedRoot := Some(q.root),
        active := Some(ActiveBuild(q.ticket, q.root, q.kind, 0, 0, q.token)),
        peakActive := Max(s.peakActive, 1)),
     Permit(q.ticket, q.root, q.token, q.kind))
  }

  predicate Selected(s: State, ticket: Ticket) {
    s.active.None?
    && var i := NextWaiterIndex(s.waiters, s.lastGrantedRoot);
       i.Some? && s.waiters[i.value].ticket == ticket
  }

  /** One pass of the waiting loop, by the build that holds `ticket`. */
  function Poll(s: State, ticket: Ticket, token: Token): (State, Polled) {
    if s.shuttingDown then (RemoveWaiter(s, ticket), Refused(AcquireShuttingDown))
    else if token in s.cancelled then
      (RemoveWaiter(s, ticket).(cancellations := SatAdd(s.cancellations, 1)), Refused(AcquireCancelled))
    else if Selected(s, ticket) then
      var (t, permit) := Grant(s, NextWaiterIndex(s.waiters, s.lastGrantedRoot).value);
      (t, Granted(permit))
    else (s, StillWaiting)
  }

  /** The wait is over without a grant: the root backs off. */
  function Timeout(s: State, ticket: Ticket, now: nat): State {
    var i := FirstTicket(s.waiters, ticket, 0);
    if i < |s.waiters|
    then RemoveWaiter(s, ticket).(deferred :=
           s.deferred[s.waiters[i].root := DeferredBuild(s.waiters[i].kind, 0, now + DEFERRED_RETRY_BACKOFF)])
    else s
  }

  function Release(s: State, ticket: Ticket): State {
    if s.active.Some? && s.active.value.ticket == ticket then s.(active := None) else s
  }

  function WaiterTokens(waiters: seq<QueuedBuild>): set<Token> { set w | w in waiters :: w.token }

  function CurrentTokens(compactions: map<Root, CompactionState>): set<Token> {
    set r | r in compactions && compactions[r].token.Some? :: compactions[r].token.value
  }

  function ActiveToken(active: Option<ActiveBuild>): set<Token> {
    if active.Some? then {active.value.token} else {}
  }

  function Shutdown(s: State): State {
    s.(shuttingDown := true,
       cancelled := s.cancelled + ActiveToken(s.active) + WaiterTokens(s.waiters) + CurrentTokens(s.compactions))
  }

  function OfOtherRoots(waiters: seq<QueuedBuild>, root: Root): (r: seq<QueuedBuild>) {
    if waiters == [] then []
    else (if waiters[0].root != root then [waiters[0]] else []) + OfOtherRoots(waiters[1..], root)
  }

  function Cancel(cancelled: set<Token>, token: Option<Token>): set<Token> {
    if token.Some? then cancelled + {token.value} else cancelled
  }

  function CancelActiveOf(s: State, root: Root): State {
    if s.active.Some? && s.active.value.root == root
    then s.(cancelled := s.cancelled + {s.active.value.token})
    else s
  }

  function DropCompaction(s: State, root: Root): State {
    s.(cancelled := Cancel(s.cancelled, CompactionOf(s, root).token), compactions := s.compactions - {root})
  }

  function RemoveRoot(s: State, root: Root): State {
    var cancelled := CancelActiveOf(s, root);
    DropCompaction(
      cancelled.(waiters := OfOtherRoots(s.waiters, root), deferred := s.deferred - {root}),
      root)
  }

  // ---------------------------------------------------------------- the memory ledger

  predicate Holds(s: State, ticket: Ticket) {
    s.active.Some? && s.active.value.ticket == ticket
  }

  function Deny(s: State, permit: Permit, requested: nat, now: nat): State
    requires s.active.Some?
  {
    s.(budgetDenials := SatAdd(s.budgetDenials, 1),
       deferred := s.deferred[permit.root :=
         DeferredBuild(s.active.value.kind, requested, now + DEFERRED_RETRY_BACKOFF)])
  }

  function NoteSample(s: State, sampled: nat): State {
    if sampled == 0 then s.(samplingUnavailable := SatAdd(s.samplingUnavailable, 1)) else s
  }

  function Pressure(policy: Policy, reserved: nat, retained: nat, sampled: nat): nat {
    SatAdd(SatAdd(Max(sampled, retained), reserved), policy.headroomBytes)
  }

  function SetLedger(s: State, reserved: nat, retained: nat): State
    requires s.active.Some?
  {
    s.(active := Some(s.active.value.(reserved := reserved, retained := retained)))
  }

  /** The numbers of an accepted reservation; the root need not back off any more. */
  function Accepted(s: State, permit: Permit, reserved: nat, retained: nat): State
    requires s.active.Some?
  {
    SetLedger(s, reserved, retained).(
      peakReserved := Max(s.peakReserved, reserved),
      peakRetained := Max(s.peakRetained, retained),
      deferred := s.deferred - {permit.root})
  }

  /** The locked part of a reservation. */
  function Claim(s: State, policy: Policy, permit: Permit, reserved: nat, retained: nat, sampled: nat, now: nat)
    : (State, Reservation)
  {
    if !Holds(s, permit.ticket) then (s, NotReserved(StalePermit))
    else if reserved > policy.temporaryBytes then
      (Deny(s, permit, reserved, now), NotReserved(TemporaryBudgetExceeded))
    else
      var noted := NoteSample(s, sampled);
      if Pressure(policy, reserved, retained, sampled) > policy.targetBytes
      then (Deny(noted, permit, reserved, now), NotReserved(ProcessPressure))
      else (Accepted(noted, permit, reserved, retained), Reserved)
  }

  /**
   The token is looked at before the memory is sampled and the state locked; `late` says
   that it was raised only after that look.
   */
  function Reserve(s: State, policy: Policy, permit: Permit, reserved: nat, retained: nat, sampled: nat, now: nat,
                   late: bool): (State, Reservation)
  {
    if permit.token in s.cancelled && !late then (s, NotReserved(Cancelled))
    else Claim(s, policy, permit, reserved, retained, sampled, now)
  }

  /** What a reservation lease writes back when it is dropped. */
  function Restore(s: State, ticket: Ticket, reserved: nat, retained: nat): State {
    if Holds(s, ticket) then SetLedger(s, reserved, retained) else s
  }

  // ---------------------------------------------------------------- compaction

  function RequestCompaction(s: State, root: Root, epoch: nat): (State, CompactionRequest) {
    if s.shuttingDown then (s, IgnoredStale)
    else
      var c := CompactionOf(s, root);
      if epoch <= c.latest then (s.(compactions := s.compactions[root := c]), IgnoredStale)
      else
        var t := s.(compactions := s.compactions[root := c.(latest := epoch, workerRunning := true)]);
        if c.workerRunning then (t.(cancelled := Cancel(t.cancelled, c.token)), UpdatedPending)
        else (t, StartWorker)
  }

  function BeginNextCompaction(s: State, root: Root): (State, Option<(nat, Token)>) {
    if root !in s.compactions then (s, None)
    else
      var c := s.compactions[root];
      if c.current == Some(c.latest) then (s, None)
      else
        (s.(compactions := s.compactions[root := c.(current := Some(c.latest), token := Some(s.nextToken))],
            nextToken := s.nextToken + 1),
         Some((c.latest, s.nextToken)))
  }

  function ClearCurrent(c: CompactionState, epoch: nat): CompactionState {
    if c.current == Some(epoch) then c.(current := None, token := None) else c
  }

  function FinishCompaction(s: State, root: Root, epoch: nat): (State, bool) {
    if root !in s.compactions then (s, false)
    else
      var c := ClearCurrent(s.compactions[root], epoch);
      if c.latest > epoch then (s.(compactions := s.compactions[root := c]), true)
      else (s.(compactions := s.compactions - {root}), false)
  }

  function RetryCompaction(s: State, root: Root, epoch: nat): (State, bool) {
    if s.shuttingDown || root !in s.compactions then (s, false)
    else (s.(compactions := s.compactions[root := ClearCurrent(s.compactions[root], epoch)]), true)
  }

  // ---------------------------------------------------------------- the selection rule

  lemma {:induction false} FirstOtherFacts(waiters: seq<QueuedBuild>, last: Option<Root>, from: nat)
    requires from <= |waiters|
    ensures forall k: nat :: from <= k < FirstOther(waiters, last, from) ==> Some(waiters[k].root) == last
    ensures FirstOther(waiters, last, from) < |waiters|
      ==> Some(waiters[FirstOther(waiters, last, from)].root) != last
    decreases |waiters| - from
  {
    if from < |waiters| && Some(waiters[from].root) == last {
      FirstOtherFacts(waiters, last, from + 1);
    }
  }

  lemma {:induction false} FirstTicketFacts(waiters: seq<QueuedBuild>, ticket: Ticket, from: nat)
    requires from <= |waiters|
    ensures forall k: nat :: from <= k < FirstTicket(waiters, ticket, from) ==> waiters[k].ticket != ticket
    ensures FirstTicket(waiters, ticket, from) < |waiters|
      ==> waiters[FirstTicket(waiters, ticket, from)].ticket == ticket
    decreases |waiters| - from
  {
    if from < |waiters| && waiters[from].ticket != ticket {
      FirstTicketFacts(waiters, ticket, from + 1);
    }
  }

  /**
   The selected build is in the queue; no build ahead of it has another root than
   the last granted one, unless it is at the head; and it has the last granted
   root only when every waiting build has.
   */
  lemma NextWaiterIsFair(waiters: seq<QueuedBuild>, last: Option<Root>)
    ensures NextWaiterIndex(waiters, last).None? <==> waiters == []
    ensures NextWaiterIndex(waiters, last).Some? ==>
      var i := NextWaiterIndex(waiters, last).value;
      (forall k: nat :: k < i ==> Some(waiters[k].root) == last)
      && (Some(waiters[i].root) == last ==> i == 0 && forall k: nat :: k < |waiters| ==> Some(waiters[k].root) == last)
  {
    FirstOtherFacts(waiters, last, 0);
  }
}
