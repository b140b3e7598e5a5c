/**
 Reservations against the memory ledger of the active build (build_coordinator.rs
 802-821, 825-879, 904-962): what an accepted reservation means without the
 saturating arithmetic, and which size a negotiated phase ends up with.
 */
module Ledger {
  import opened Basics
  import opened Admission

  const NEGOTIATION_STEP: nat := 4 * 1024 * 1024

  /** The restoring half of a scoped reservation. */
  datatype ReservationLease = ReservationLease(permit: Permit, parentReserved: nat, parentRetained: nat)

  datatype Leased = Leased(lease: ReservationLease, bytes: nat) | NotLeased(error: ReservationError)

  predicate LedgerIs(s: State, permit: Permit, reserved: nat, retained: nat) {
    Holds(s, permit.ticket) && s.active.value.reserved == reserved && s.active.value.retained == retained
  }

  // ---------------------------------------------------------------- what acceptance means

  /** The sizes an accepted reservation adds up to, as true integers. */
  function Claimed(policy: Policy, reserved: nat, retained: nat, sampled: nat): nat {
    Max(sampled, retained) + reserved + policy.headroomBytes
  }

  /** Saturation never hides an overrun while the target is not the largest number itself. */
  lemma PressureIsExact(policy: Policy, reserved: nat, retained: nat, sampled: nat)
    ensures Pressure(policy, reserved, retained, sampled)
         == Min(Claimed(policy, reserved, retained, sampled), USIZE_MAX)
    ensures policy.targetBytes < USIZE_MAX ==>
      (Pressure(policy, reserved, retained, sampled) <= policy.targetBytes
       <==> Claimed(policy, reserved, retained, sampled) <= policy.targetBytes)
    ensures policy.targetBytes >= USIZE_MAX ==> Pressure(policy, reserved, retained, sampled) <= policy.targetBytes
  {
  }

  /** With the largest target every process size is accepted, however large the true sum. */
  lemma LargestTargetNeverRefuses()
    ensures var policy := Policy(1, USIZE_MAX, 0);
      Claimed(policy, 1, 0, USIZE_MAX) > policy.targetBytes
      && Pressure(policy, 1, 0, USIZE_MAX) <= policy.targetBytes
  {
  }

  /**
   A reservation is accepted exactly when the build is live, its token was not raised when
   the call looked at it, the estimate fits the temporary budget, and the true sum of live
   memory, estimate and headroom fits the target. Accepted, it changes the ledger to the two
   numbers given and lifts the root's back-off; refused, it leaves the ledger alone.
   */
  lemma ReserveFacts(s: State, policy: Policy, permit: Permit, reserved: nat, retained: nat, sampled: nat, now: nat,
                     late: bool)
    ensures var (t, r) := Reserve(s, policy, permit, reserved, retained, sampled, now, late);
      (r.Reserved? <==>
        (permit.token !in s.cancelled || late) && Holds(s, permit.ticket) && reserved <= policy.temporaryBytes
        && (policy.targetBytes < USIZE_MAX ==> Claimed(policy, reserved, retained, sampled) <= policy.targetBytes))
      && (r.Reserved? ==>
            LedgerIs(t, permit, reserved, retained) && permit.root !in t.deferred
            && reserved <= t.peakReserved && retained <= t.peakRetained)
      && (r.NotReserved? ==>
            t.active == s.active && t.peakReserved == s.peakReserved && t.peakRetained == s.peakRetained)
      && (r.NotReserved? && r.error in {TemporaryBudgetExceeded, ProcessPressure} ==>
            permit.root in t.deferred && t.deferred[permit.root].requestedBytes == reserved
            && t.deferred[permit.root].retryAfter == now + DEFERRED_RETRY_BACKOFF)
      && t.waiters == s.waiters && t.cancelled == s.cancelled && t.compactions == s.compactions
      && s.peakReserved <= t.peakReserved && s.peakRetained <= t.peakRetained
  {
    PressureIsExact(policy, reserved, retained, sampled);
  }

  // ---------------------------------------------------------------- scoped and phased reservations

  /** Sequential phases replace the estimate; nested scopes add to it. */
  datatype Scope = Phase | Nested

  function Estimate(scope: Scope, parentReserved: nat, bytes: nat): nat {
    if scope == Phase then bytes else SatAdd(parentReserved, bytes)
  }

  /** The second critical section: claim, and remember what to restore. */
  function Open(s: State, policy: Policy, permit: Permit, scope: Scope, parentReserved: nat, parentRetained: nat,
                bytes: nat, sampled: nat, now: nat, late: bool): (State, Leased)
  {
    var (t, r) :=
      Reserve(s, policy, permit, Estimate(scope, parentReserved, bytes), parentRetained, sampled, now, late);
    match r
    case Reserved => (t, Leased(ReservationLease(permit, parentReserved, parentRetained), bytes))
    case NotReserved(error) => (t, NotLeased(error))
  }

  /** Both critical sections with nothing in between: read the ledger, then claim. */
  function ReadThenOpen(s: State, policy: Policy, permit: Permit, scope: Scope, bytes: nat, sampled: nat, now: nat)
    : (State, Leased)
  {
    if !Holds(s, permit.ticket) then (s, NotLeased(StalePermit))
    else Open(s, policy, permit, scope, s.active.value.reserved, s.active.value.retained, bytes, sampled, now, false)
  }

  /** A lease replaces the retained bytes of its scope, down to its parent's estimate. */
  function Retain(s: State, policy: Policy, lease: ReservationLease, bytes: nat, sampled: nat, now: nat, late: bool)
    : (State, Reservation)
  {
    if SatAdd(bytes, lease.parentReserved) > policy.temporaryBytes then (s, NotReserved(TemporaryBudgetExceeded))
    else Reserve(s, policy, lease.permit, lease.parentReserved, SatAdd(lease.parentRetained, bytes), sampled, now, late)
  }

  // ---------------------------------------------------------------- negotiation

  /** The size tried after `bytes` was refused. */
  function Smaller(bytes: nat, minimum: nat): nat {
    Max(SatSub(bytes, NEGOTIATION_STEP), minimum)
  }

  /** The retry loop: sample and clock are read anew by every attempt. */
  function Negotiate(s: State, policy: Policy, permit: Permit, bytes: nat, minimum: nat,
                     sampler: nat -> nat, clock: nat -> nat, attempt: nat): (State, Leased)
    decreases bytes
  {
    var (t, r) := ReadThenOpen(s, policy, permit, Nested, bytes, sampler(attempt), clock(attempt));
    if r == NotLeased(ProcessPressure) && bytes > minimum
    then Negotiate(t, policy, permit, Smaller(bytes, minimum), minimum, sampler, clock, attempt + 1)
    else (t, r)
  }

  function Offer(s: State, policy: Policy, preferred: nat): nat
    requires s.active.Some?
  {
    Min(preferred, SatSub(policy.temporaryBytes, s.active.value.reserved))
  }

  function ReserveScopedUpTo(s: State, policy: Policy, permit: Permit, preferred: nat, minimum: nat,
                             sampler: nat -> nat, clock: nat -> nat): (State, Leased)
  {
    if !Holds(s, permit.ticket) then (s, NotLeased(StalePermit))
    else if Offer(s, policy, preferred) < minimum then (s, NotLeased(TemporaryBudgetExceeded))
    else Negotiate(s, policy, permit, Offer(s, policy, preferred), minimum, sampler, clock, 0)
  }

  /** Whether `bytes` more would be accepted over this ledger with this sample. */
  predicate Admissible(policy: Policy, reserved: nat, retained: nat, sampled: nat, bytes: nat) {
    reserved + bytes <= policy.temporaryBytes
    && Pressure(policy, SatAdd(reserved, bytes), retained, sampled) <= policy.targetBytes
  }

  lemma AdmissibleIsDownwardClosed(policy: Policy, reserved: nat, retained: nat, sampled: nat, small: nat, large: nat)
    requires small <= large && Admissible(policy, reserved, retained, sampled, large)
    ensures Admissible(policy, reserved, retained, sampled, small)
  {
  }

  ghost predicate NegotiationOutcome(s: State, policy: Policy, permit: Permit, bytes: nat, minimum: nat, sampled: nat,
                                     t: State, r: Leased)
    requires s.active.Some?
  {
    var reserved, retained := s.active.value.reserved, s.active.value.retained;
    (r.Leased? ==>
      minimum <= r.bytes <= bytes
      && Admissible(policy, reserved, retained, sampled, r.bytes)
      && (forall x: nat :: x <= bytes && Admissible(policy, reserved, retained, sampled, x)
            ==> x < r.bytes + NEGOTIATION_STEP)
      && r.lease == ReservationLease(permit, reserved, retained)
      && LedgerIs(t, permit, reserved + r.bytes, retained))
    && (r.NotLeased? ==>
          r.error == ProcessPressure && !Admissible(policy, reserved, retained, sampled, minimum)
          && t.active == s.active)
  }

  /** One attempt succeeds exactly when its size is admissible, and a refused one leaves the ledger alone. */
  lemma AttemptFacts(s: State, policy: Policy, permit: Permit, bytes: nat, sampled: nat, now: nat)
    requires Holds(s, permit.ticket) && permit.token !in s.cancelled
    requires s.active.value.reserved + bytes <= policy.temporaryBytes <= USIZE_MAX
    ensures var (t, r) := ReadThenOpen(s, policy, permit, Nested, bytes, sampled, now);
      var reserved, retained := s.active.value.reserved, s.active.value.retained;
      (r.Leased? <==> Admissible(policy, reserved, retained, sampled, bytes))
      && (r.Leased? ==>
            LedgerIs(t, permit, reserved + bytes, retained)
            && r == Leased(ReservationLease(permit, reserved, retained), bytes))
      && (r.NotLeased? ==> r.error == ProcessPressure && t.active == s.active && t.cancelled == s.cancelled)
  {
  }

  /**
   With one sample and no other change to the ledger, the negotiation ends with a
   size within one step of the largest admissible one, or finds even the minimum
   inadmissible.
   */
  lemma {:induction false} NegotiateIsNearlyMaximal(
      s: State, policy: Policy, permit: Permit, bytes: nat, minimum: nat,
      sampler: nat -> nat, clock: nat -> nat, attempt: nat)
    requires Holds(s, permit.ticket) && permit.token !in s.cancelled
    requires minimum <= bytes && s.active.value.reserved + bytes <= policy.temporaryBytes <= USIZE_MAX
    requires forall i: nat :: sampler(i) == sampler(attempt)
    ensures var (t, r) := Negotiate(s, policy, permit, bytes, minimum, sampler, clock, attempt);
      NegotiationOutcome(s, policy, permit, bytes, minimum, sampler(attempt), t, r)
    decreases bytes
  {
    var reserved, retained := s.active.value.reserved, s.active.value.retained;
    var sampled := sampler(attempt);
    var (t, r) := ReadThenOpen(s, policy, permit, Nested, bytes, sampled, clock(attempt));
    AttemptFacts(s, policy, permit, bytes, sampled, clock(attempt));
    if r.NotLeased? && bytes > minimum {
      assert sampler(attempt + 1) == sampled;
      NegotiateIsNearlyMaximal(t, policy, permit, Smaller(bytes, minimum), minimum, sampler, clock, attempt + 1);
      forall x: nat | x <= bytes && Admissible(policy, reserved, retained, sampled, x)
        ensures x < Smaller(bytes, minimum) + NEGOTIATION_STEP
      {
        assert x != bytes;
      }
    }
  }

  /**
   The negotiated size: at least the minimum, at most what was preferred and what
   the budget has left, and within 4 MiB of the largest admissible size not above
   that offer. It fails with process pressure exactly when the minimum itself is
   inadmissible, and with the budget exactly when the budget cannot hold the minimum.
   */
  lemma NegotiatedSize(s: State, policy: Policy, permit: Permit, preferred: nat, minimum: nat,
                       sampler: nat -> nat, clock: nat -> nat, sampled: nat)
    requires Holds(s, permit.ticket) && permit.token !in s.cancelled
    requires s.active.value.reserved <= policy.temporaryBytes <= USIZE_MAX
    requires forall i: nat :: sampler(i) == sampled
    ensures var (t, r) := ReserveScopedUpTo(s, policy, permit, preferred, minimum, sampler, clock);
      var reserved, retained := s.active.value.reserved, s.active.value.retained;
      (r.Leased? ==>
        minimum <= r.bytes <= preferred && reserved + r.bytes <= policy.temporaryBytes
        && Admissible(policy, reserved, retained, sampled, r.bytes)
        && (forall x: nat :: x <= Offer(s, policy, preferred) && Admissible(policy, reserved, retained, sampled, x)
              ==> x < r.bytes + NEGOTIATION_STEP)
        && LedgerIs(t, permit, reserved + r.bytes, retained)
        && Restore(t, permit.ticket, r.lease.parentReserved, r.lease.parentRetained).active == s.active)
      && (r.NotLeased? ==> t.active == s.active)
      && (r == NotLeased(TemporaryBudgetExceeded) <==>
            preferred < minimum || reserved + minimum > policy.temporaryBytes)
      && (r == NotLeased(ProcessPressure) <==>
            minimum <= preferred && reserved + minimum <= policy.temporaryBytes
            && !Admissible(policy, reserved, retained, sampled, minimum))
  {
    if Offer(s, policy, preferred) >= minimum {
      NegotiateIsNearlyMaximal(s, policy, permit, Offer(s, policy, preferred), minimum, sampler, clock, 0);
      var (t, r) := Negotiate(s, policy, permit, Offer(s, policy, preferred), minimum, sampler, clock, 0);
      if r.Leased? {
        NegotiatedTicket(s, policy, permit, Offer(s, policy, preferred), minimum, sampler, clock, 0);
        var reserved, retained := s.active.value.reserved, s.active.value.retained;
        if !Admissible(policy, reserved, retained, sampled, minimum) {
          AdmissibleIsDownwardClosed(policy, reserved, retained, sampled, minimum, r.bytes);
        }
      }
    }
  }

  /** A negotiation touches nothing of the active build but its two ledger numbers. */
  lemma {:induction false} NegotiatedTicket(
      s: State, policy: Policy, permit: Permit, bytes: nat, minimum: nat,
      sampler: nat -> nat, clock: nat -> nat, attempt: nat)
    requires s.active.Some?
    ensures var t := Negotiate(s, policy, permit, bytes, minimum, sampler, clock, attempt).0;
      t.active.Some?
      && t.active.value.(reserved := s.active.value.reserved, retained := s.active.value.retained) == s.active.value
    decreases bytes
  {
    var (t, r) := ReadThenOpen(s, policy, permit, Nested, bytes, sampler(attempt), clock(attempt));
    if r == NotLeased(ProcessPressure) && bytes > minimum {
      NegotiatedTicket(t, policy, permit, Smaller(bytes, minimum), minimum, sampler, clock, attempt + 1);
    }
  }
}
