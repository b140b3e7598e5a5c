/**
 The memory ledger over every run of the coordinator: it stays within the temporary
 budget and below the recorded peaks, and properly nested scopes restore it
 (build_coordinator.rs 280-308, 802-821, 860-879, 904-962).
 */
module LedgerRuns {
  import opened Basics
  import opened Admission
  import opened Ledger
  import opened CoordinatorRuns
  import opened Permits

  // ---------------------------------------------------------------- within budget, below the peaks

  predicate Bounded(policy: Policy, s: State, reserved: nat, retained: nat) {
    reserved <= policy.temporaryBytes && reserved <= s.peakReserved && retained <= s.peakRetained
  }

  ghost predicate LedgerInv(policy: Policy, y: System) {
    (y.state.active.Some? ==> Bounded(policy, y.state, y.state.active.value.reserved, y.state.active.value.retained))
    && (forall h :: h in y.handles && y.handles[h].Lease? ==>
          Bounded(policy, y.state, y.handles[h].parentReserved, y.handles[h].parentRetained))
    && (forall r :: r in y.pending ==> Bounded(policy, y.state, y.pending[r].reserved, y.pending[r].retained))
  }

  /** The ledger of the active build, if there is one. */
  function Numbers(s: State): Option<(nat, nat)> {
    if s.active.Some? then Some((s.active.value.reserved, s.active.value.retained)) else None
  }

  /** Nothing of the ledger, the leases or the peaks has changed, unless the slot became free. */
  ghost predicate LedgerQuiet(y: System, z: System) {
    (z.state.active.Some? ==> Numbers(z.state) == Numbers(y.state))
    && y.state.peakReserved <= z.state.peakReserved && y.state.peakRetained <= z.state.peakRetained
    && (forall h :: h in z.handles && z.handles[h].Lease? ==> h in y.handles && y.handles[h] == z.handles[h])
    && z.pending == y.pending
  }

  lemma QuietKeepsLedger(policy: Policy, y: System, z: System)
    requires LedgerInv(policy, y) && LedgerQuiet(y, z)
    ensures LedgerInv(policy, z)
  {
  }

  /** The events that neither read nor change the ledger nor grant the slot. */
  predicate OffLedger(e: Event) {
    !e.PollWaiter? && !e.ReserveBytes? && !e.ReadLedger? && !e.OpenScope? && !e.RetainBytes? && !e.CloseScope?
  }

  lemma OffLedgerIsQuiet(policy: Policy, y: System, e: Event)
    requires OffLedger(e)
    ensures LedgerQuiet(y, Step(policy, y, e))
  {
    if OfCompaction(e) {
      CompactionIsOffLedger(policy, y, e);
    }
  }

  lemma CompactionIsOffLedger(policy: Policy, y: System, e: Event)
    requires OfCompaction(e)
    ensures LedgerQuiet(y, Step(policy, y, e))
  {
    match e
    case AskCompaction(root, epoch) => AskIsOffLedger(y, root, epoch);
    case BeginCompaction(w) => BeginIsOffLedger(y, w);
    case EndCompaction(w, retry) => EndIsOffLedger(y, w, retry);
  }

  lemma AskIsOffLedger(y: System, root: Root, epoch: nat)
    ensures LedgerQuiet(y, Asked(y, root, epoch))
  {
  }

  lemma BeginIsOffLedger(y: System, w: nat)
    ensures LedgerQuiet(y, Begun(y, w))
  {
  }

  lemma EndIsOffLedger(y: System, w: nat, retry: bool)
    ensures LedgerQuiet(y, Ended(y, w, retry))
  {
  }

  lemma PollKeepsLedger(policy: Policy, y: System, ticket: Ticket, token: Token)
    requires LedgerInv(policy, y)
    ensures LedgerInv(policy, AfterPoll(y, ticket, token))
  {
  }

  lemma ClaimKeepsLedger(policy: Policy, y: System, permit: Permit, reserved: nat, retained: nat, sampled: nat,
                          now: nat, late: bool)
    requires LedgerInv(policy, y)
    ensures LedgerInv(policy, WithState(y, Reserve(y.state, policy, permit, reserved, retained, sampled, now, late).0))
  {
    ReserveFacts(y.state, policy, permit, reserved, retained, sampled, now, late);
  }

  lemma OpenKeepsLedger(policy: Policy, y: System, read: nat, scope: Scope, bytes: nat, sampled: nat, now: nat,
                        late: bool)
    requires LedgerInv(policy, y)
    ensures LedgerInv(policy, Opened(y, policy, read, scope, bytes, sampled, now, late))
  {
    if read in y.pending {
      var d := y.pending[read];
      var estimate := Estimate(scope, d.reserved, bytes);
      ClaimKeepsLedger(policy, y, d.permit, estimate, d.retained, sampled, now, late);
      ReserveFacts(y.state, policy, d.permit, estimate, d.retained, sampled, now, late);
    }
  }

  lemma RetainKeepsLedger(policy: Policy, y: System, id: nat, bytes: nat, sampled: nat, now: nat, late: bool)
    requires LedgerInv(policy, y)
    ensures LedgerInv(policy, RetainedBy(y, policy, id, bytes, sampled, now, late))
  {
    if IsLease(y, id) {
      var h := y.handles[id];
      ClaimKeepsLedger(policy, y, h.permit, h.parentReserved, SatAdd(h.parentRetained, bytes), sampled, now, late);
    }
  }

  lemma StepKeepsLedger(policy: Policy, y: System, e: Event)
    requires LedgerInv(policy, y)
    ensures LedgerInv(policy, Step(policy, y, e))
  {
    if OffLedger(e) {
      OffLedgerIsQuiet(policy, y, e);
      QuietKeepsLedger(policy, y, Step(policy, y, e));
    } else {
      match e
      case PollWaiter(ticket, token) => PollKeepsLedger(policy, y, ticket, token);
      case ReserveBytes(id, reserved, retained, sampled, now, late) =>
        if IsShare(y, id) {
          ClaimKeepsLedger(policy, y, y.handles[id].permit, reserved, retained, sampled, now, late);
        }
      case ReadLedger(id) =>
      case OpenScope(read, scope, bytes, sampled, now, late) =>
        OpenKeepsLedger(policy, y, read, scope, bytes, sampled, now, late);
      case RetainBytes(id, bytes, sampled, now, late) => RetainKeepsLedger(policy, y, id, bytes, sampled, now, late);
      case CloseScope(id) =>
    }
  }

  lemma {:induction false} RunKeepsLedger(policy: Policy, y: System, events: seq<Event>)
    requires LedgerInv(policy, y)
    ensures LedgerInv(policy, Run(policy, y, events))
    decreases |events|
  {
    if events != [] {
      StepKeepsLedger(policy, y, events[0]);
      RunKeepsLedger(policy, Step(policy, y, events[0]), events[1..]);
    }
  }

  /**
   In every run, whatever the process size is sampled to be: the active build's
   estimate is within the temporary budget and below the recorded peak, so is what
   any live lease would restore, and retained bytes are below their peak.
   */
  lemma LedgerStaysBounded(policy: Policy, events: seq<Event>)
    ensures var y := Run(policy, START, events);
      (y.state.active.Some? ==>
         y.state.active.value.reserved <= policy.temporaryBytes
         && y.state.active.value.reserved <= y.state.peakReserved
         && y.state.active.value.retained <= y.state.peakRetained)
      && (forall h :: h in y.handles && y.handles[h].Lease? ==>
            y.handles[h].parentReserved <= policy.temporaryBytes
            && y.handles[h].parentReserved <= y.state.peakReserved
            && y.handles[h].parentRetained <= y.state.peakRetained)
  {
    RunKeepsLedger(policy, START, events);
  }

  /**
   What a cancelled build may still reserve, in every run: exactly what fits, and only by a
   call that had looked at the token before it was raised.
   */
  lemma CancelledBuildReserves(policy: Policy, events: seq<Event>, id: nat, reserved: nat, retained: nat, sampled: nat,
                               now: nat, late: bool)
    requires var y := Run(policy, START, events); IsShare(y, id) && y.handles[id].permit.token in y.state.cancelled
    ensures var y := Run(policy, START, events);
      Reserve(y.state, policy, y.handles[id].permit, reserved, retained, sampled, now, late).1.Reserved?
      <==> late && reserved <= policy.temporaryBytes
           && (policy.targetBytes < USIZE_MAX ==>
                 Claimed(policy, reserved, retained, sampled) <= policy.targetBytes)
  {
    var y := Run(policy, START, events);
    RunKeepsPermits(policy, START, events);
    ReserveFacts(y.state, policy, y.handles[id].permit, reserved, retained, sampled, now, late);
  }

  // ---------------------------------------------------------------- nested scopes

  predicate SameTicket(s: State, t: State) {
    s.active.Some? && t.active.Some? && s.active.value.ticket == t.active.value.ticket
  }

  /** Whether an event opens a scope; its lease is then the next handle. */
  function Opens(policy: Policy, y: System, e: Event): bool {
    e.OpenScope? && e.read in y.pending
    && var d := y.pending[e.read];
       Open(y.state, policy, d.permit, e.scope, d.reserved, d.retained, e.bytes, e.sampled, e.now, e.late).1.Leased?
  }

  /** The scopes left open by an event, innermost last. */
  function OpenAfter(policy: Policy, y: System, e: Event, open: seq<nat>): seq<nat> {
    if Opens(policy, y, e) then open + [y.nextId]
    else if e.CloseScope? && IsLease(y, e.id) && open != [] then open[..|open| - 1]
    else open
  }

  /**
   The discipline of lexical scopes: the ledger does not change between reading it and
   opening a scope, the innermost scope closes first, and outside of these scopes
   nobody reserves or retains.
   */
  ghost predicate Disciplined(y: System, e: Event, open: seq<nat>) {
    (e.OpenScope? && e.read in y.pending ==>
       Numbers(y.state) == Some((y.pending[e.read].reserved, y.pending[e.read].retained)))
    && (e.CloseScope? && IsLease(y, e.id) ==> open != [] && e.id == open[|open| - 1])
    && (e.ReserveBytes? || e.RetainBytes? ==> open != [])
  }

  /** A whole nest: it starts with `open` scopes open, ends with none, and the build stays active. */
  ghost predicate Nested(policy: Policy, y: System, events: seq<Event>, open: seq<nat>)
    decreases |events|
  {
    if events == [] then open == []
    else
      var z := Step(policy, y, events[0]);
      Disciplined(y, events[0], open) && SameTicket(y.state, z.state)
      && Nested(policy, z, events[1..], OpenAfter(policy, y, events[0], open))
  }

  /** What the outermost open scope will restore is what there was before it. */
  ghost predicate NestInv(y: System, open: seq<nat>, base: Option<(nat, nat)>) {
    (open == [] ==> Numbers(y.state) == base)
    && (open != [] ==>
          IsLease(y, open[0])
          && base == Some((y.handles[open[0]].parentReserved, y.handles[open[0]].parentRetained)))
    && (forall i :: 0 <= i < |open| ==> open[i] < y.nextId)
    && (forall i, j :: 0 <= i < j < |open| ==> open[i] != open[j])
  }

  lemma NestOffLedger(policy: Policy, y: System, e: Event, open: seq<nat>, base: Option<(nat, nat)>)
    requires NestInv(y, open, base) && OffLedger(e) && SameTicket(y.state, Step(policy, y, e).state)
    requires HandlesInv(y)
    ensures NestInv(Step(policy, y, e), open, base)
  {
    OffLedgerIsQuiet(policy, y, e);
    if Still(e) {
      StillIsQuiet(policy, y, e);
    }
  }

  lemma NestOpen(policy: Policy, y: System, e: Event, open: seq<nat>, base: Option<(nat, nat)>)
    requires NestInv(y, open, base) && e.OpenScope? && Disciplined(y, e, open) && HandlesInv(y)
    ensures NestInv(Step(policy, y, e), OpenAfter(policy, y, e, open), base)
  {
    if e.read in y.pending {
      var d := y.pending[e.read];
      var estimate := Estimate(e.scope, d.reserved, e.bytes);
      ReserveFacts(y.state, policy, d.permit, estimate, d.retained, e.sampled, e.now, e.late);
    }
  }

  lemma NestClose(policy: Policy, y: System, e: Event, open: seq<nat>, base: Option<(nat, nat)>)
    requires NestInv(y, open, base) && e.CloseScope? && Disciplined(y, e, open) && HandlesInv(y)
    ensures NestInv(Step(policy, y, e), OpenAfter(policy, y, e, open), base)
  {
  }

  lemma NestRest(policy: Policy, y: System, e: Event, open: seq<nat>, base: Option<(nat, nat)>)
    requires NestInv(y, open, base) && Disciplined(y, e, open) && SameTicket(y.state, Step(policy, y, e).state)
    requires e.PollWaiter? || e.ReserveBytes? || e.RetainBytes? || e.ReadLedger?
    ensures NestInv(Step(policy, y, e), open, base)
  {
    if OfLedger(e) {
      LedgerIsQuiet(policy, y, e);
    }
  }

  lemma {:induction false} NestRestores(policy: Policy, y: System, events: seq<Event>, open: seq<nat>,
                                        base: Option<(nat, nat)>)
    requires HandlesInv(y) && NestInv(y, open, base) && Nested(policy, y, events, open)
    ensures Numbers(Run(policy, y, events).state) == base
    decreases |events|
  {
    if events != [] {
      var e, z := events[0], Step(policy, y, events[0]);
      if OffLedger(e) {
        NestOffLedger(policy, y, e, open, base);
      } else if e.OpenScope? {
        NestOpen(policy, y, e, open, base);
      } else if e.CloseScope? {
        NestClose(policy, y, e, open, base);
      } else {
        NestRest(policy, y, e, open, base);
      }
      StepKeepsHandles(policy, y, e);
      NestRestores(policy, z, events[1..], OpenAfter(policy, y, e, open), base);
    }
  }

  /**
   Properly nested scopes give back exactly the reserved and retained bytes they
   found, in every run, whatever was reserved or retained inside them and whatever
   other callers did to the queue, the tokens and the compactions meanwhile.
   */
  lemma NestedScopesRestore(policy: Policy, before: seq<Event>, events: seq<Event>)
    requires var y := Run(policy, START, before); y.state.active.Some? && Nested(policy, y, events, [])
    ensures var y := Run(policy, START, before);
      Numbers(Run(policy, y, events).state) == Numbers(y.state)
  {
    RunKeepsPermits(policy, START, before);
    var y := Run(policy, START, before);
    NestRestores(policy, y, events, [], Numbers(y.state));
  }
}
