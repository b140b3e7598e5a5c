/**
 Scoped reservations as events of a run (build_coordinator.rs 280-308, 802-858): the
 uninterrupted scope and the negotiated one are runs of ledger reads and claims, and
 scopes that close in another order than they opened restore the ledger only by luck.
 */
module ScopeRuns {
  import opened Basics
  import opened Admission
  import opened Ledger
  import opened CoordinatorRuns
  import opened Permits
  import opened LedgerRuns

  /** What the holder of a share asks for when it opens a scope. */
  datatype Opening = Opening(share: nat, scope: Scope, bytes: nat, sampled: nat, now: nat)

  /** The two events of opening a scope, with nothing in between. */
  function OpeningEvents(y: System, o: Opening): seq<Event> {
    [ReadLedger(o.share), OpenScope(y.nextId, o.scope, o.bytes, o.sampled, o.now, false)]
  }

  ghost function AfterOpening(policy: Policy, y: System, o: Opening): System {
    Run(policy, y, OpeningEvents(y, o))
  }

  /** The handle a scope opened in `y` gets. */
  function LeaseId(y: System): nat { y.nextId + 1 }

  ghost predicate OpensScope(policy: Policy, y: System, o: Opening) {
    IsShare(y, o.share) && IsLease(AfterOpening(policy, y, o), LeaseId(y))
  }

  lemma RunOfTwo(policy: Policy, y: System, e: Event, f: Event)
    ensures Run(policy, y, [e, f]) == Step(policy, Step(policy, y, e), f)
  {
    assert [e, f][1..] == [f] && [f][1..] == [];
    assert Run(policy, Step(policy, Step(policy, y, e), f), []) == Step(policy, Step(policy, y, e), f);
  }

  // ---------------------------------------------------------------- the uninterrupted scope

  /**
   Reading the ledger and claiming over it, as two events of a run with none in between, is
   the scoped reservation: same state, a lease exactly when it succeeds, and the lease
   remembers what was read.
   */
  lemma OpenIsReadThenOpen(policy: Policy, y: System, o: Opening)
    requires HandlesInv(y) && IsShare(y, o.share)
    ensures var z := AfterOpening(policy, y, o);
      var permit := y.handles[o.share].permit;
      var (s, r) := ReadThenOpen(y.state, policy, permit, o.scope, o.bytes, o.sampled, o.now);
      z.state == s && HandlesInv(z) && z.nextId >= LeaseId(y)
      && IsShare(z, o.share) && z.handles[o.share].permit == permit
      && (r.Leased? <==> IsLease(z, LeaseId(y)))
      && (r.Leased? ==> z.handles[LeaseId(y)] == Lease(permit, r.lease.parentReserved, r.lease.parentRetained))
  {
    var read := Step(policy, y, ReadLedger(o.share));
    var claim := OpenScope(y.nextId, o.scope, o.bytes, o.sampled, o.now, false);
    RunOfTwo(policy, y, ReadLedger(o.share), claim);
    StepKeepsHandles(policy, y, ReadLedger(o.share));
    StepKeepsHandles(policy, read, claim);
    assert Holds(y.state, y.handles[o.share].permit.ticket);
    assert LeaseId(y) !in read.handles;
  }

  /** The negotiation is a run of such openings. */
  lemma {:induction false} NegotiationIsARun(
      policy: Policy, y: System, share: nat, bytes: nat, minimum: nat,
      sampler: nat -> nat, clock: nat -> nat, attempt: nat) returns (events: seq<Event>, id: nat)
    requires HandlesInv(y) && IsShare(y, share)
    ensures var permit := y.handles[share].permit;
      var (s, r) := Negotiate(y.state, policy, permit, bytes, minimum, sampler, clock, attempt);
      var z := Run(policy, y, events);
      z.state == s
      && (r.Leased? ==>
            IsLease(z, id) && z.handles[id] == Lease(permit, r.lease.parentReserved, r.lease.parentRetained))
    decreases bytes
  {
    var o := Opening(share, Nested, bytes, sampler(attempt), clock(attempt));
    var z := AfterOpening(policy, y, o);
    var r := ReadThenOpen(y.state, policy, y.handles[share].permit, Nested, bytes, o.sampled, o.now).1;
    OpenIsReadThenOpen(policy, y, o);
    events, id := OpeningEvents(y, o), LeaseId(y);
    if r == NotLeased(ProcessPressure) && bytes > minimum {
      var rest;
      rest, id := NegotiationIsARun(
        policy, z, share, Smaller(bytes, minimum), minimum, sampler, clock, attempt + 1);
      RunInTwo(policy, y, events, rest);
      events := events + rest;
    }
  }

  /** So is the reservation that offers what the budget has left. */
  lemma UpToIsARun(policy: Policy, y: System, share: nat, preferred: nat, minimum: nat,
                   sampler: nat -> nat, clock: nat -> nat) returns (events: seq<Event>, id: nat)
    requires HandlesInv(y) && IsShare(y, share)
    ensures var permit := y.handles[share].permit;
      var (s, r) := ReserveScopedUpTo(y.state, policy, permit, preferred, minimum, sampler, clock);
      var z := Run(policy, y, events);
      z.state == s
      && (r.Leased? ==>
            IsLease(z, id) && z.handles[id] == Lease(permit, r.lease.parentReserved, r.lease.parentRetained))
  {
    events, id := [], 0;
    if Holds(y.state, y.handles[share].permit.ticket) && Offer(y.state, policy, preferred) >= minimum {
      events, id :=
        NegotiationIsARun(policy, y, share, Offer(y.state, policy, preferred), minimum, sampler, clock, 0);
    }
  }

  // ---------------------------------------------------------------- scopes closed out of order

  /** A lease that is still there is what it was. */
  lemma {:induction false} LeaseStays(policy: Policy, y: System, events: seq<Event>, id: nat)
    requires id < y.nextId && IsLease(Run(policy, y, events), id)
    ensures IsLease(y, id) && Run(policy, y, events).handles[id] == y.handles[id]
    decreases |events|
  {
    if events != [] {
      LeaseStays(policy, Step(policy, y, events[0]), events[1..], id);
      LeaseWasThere(policy, y, events[0], id);
    }
  }

  lemma LeaseWasThere(policy: Policy, y: System, e: Event, id: nat)
    ensures y.nextId <= Step(policy, y, e).nextId
    ensures id < y.nextId && IsLease(Step(policy, y, e), id) ==>
      IsLease(y, id) && Step(policy, y, e).handles[id] == y.handles[id]
  {
  }

  /** What a newly opened scope remembers is the ledger it was opened over. */
  lemma RemembersTheLedger(policy: Policy, y: System, o: Opening)
    requires HandlesInv(y) && OpensScope(policy, y, o)
    ensures var lease := AfterOpening(policy, y, o).handles[LeaseId(y)];
      Numbers(y.state) == Some((lease.parentReserved, lease.parentRetained))
  {
    OpenIsReadThenOpen(policy, y, o);
  }

  lemma CloseRestores(policy: Policy, y: System, id: nat)
    requires HandlesInv(y) && IsLease(y, id)
    ensures var z := Step(policy, y, CloseScope(id));
      HandlesInv(z) && Numbers(z.state) == Some((y.handles[id].parentReserved, y.handles[id].parentRetained))
      && forall other :: other != id && IsLease(y, other) ==> IsLease(z, other) && z.handles[other] == y.handles[other]
  {
    StepKeepsHandles(policy, y, CloseScope(id));
  }

  /** Scope `a` opens, anything happens, scope `b` opens, anything happens while both stay open. */
  ghost function TwoScopes(
    policy: Policy, y: System, a: Opening, between: seq<Event>, b: Opening, after: seq<Event>): System
  {
    Run(policy, AfterOpening(policy, Run(policy, AfterOpening(policy, y, a), between), b), after)
  }

  /**
   Of two scopes, `a` opened before `b`. Closed in reverse order they give back the ledger
   that was there before `a`. Closed in the order they opened they leave the ledger that `b`
   found, so they restore the first one if and only if what happened in between, opening `a`
   included, left both numbers as they were.
   */
  lemma CrossedScopesRestoreIff(
      policy: Policy, before: seq<Event>, a: Opening, between: seq<Event>, b: Opening, after: seq<Event>)
    requires var y := Run(policy, START, before);
      var mid := Run(policy, AfterOpening(policy, y, a), between);
      var z := TwoScopes(policy, y, a, between, b, after);
      OpensScope(policy, y, a) && OpensScope(policy, mid, b)
      && IsLease(z, LeaseId(y)) && IsLease(z, LeaseId(mid))
    ensures var y := Run(policy, START, before);
      var mid := Run(policy, AfterOpening(policy, y, a), between);
      var z := TwoScopes(policy, y, a, between, b, after);
      var first, second := LeaseId(y), LeaseId(mid);
      first != second
      && Numbers(Run(policy, z, [CloseScope(second), CloseScope(first)]).state) == Numbers(y.state)
      && Numbers(Run(policy, z, [CloseScope(first), CloseScope(second)]).state) == Numbers(mid.state)
      && (Numbers(Run(policy, z, [CloseScope(first), CloseScope(second)]).state) == Numbers(y.state)
          <==> Numbers(mid.state) == Numbers(y.state))
  {
    var y := Run(policy, START, before);
    var inside := AfterOpening(policy, y, a);
    var mid := Run(policy, inside, between);
    var both := AfterOpening(policy, mid, b);
    var z := Run(policy, both, after);
    var first, second := LeaseId(y), LeaseId(mid);
    RunKeepsPermits(policy, START, before);
    RunKeepsPermits(policy, y, OpeningEvents(y, a));
    RunKeepsPermits(policy, inside, between);
    RunKeepsPermits(policy, mid, OpeningEvents(mid, b));
    RunKeepsPermits(policy, both, after);
    FirstStays(policy, y, a, between, b, after);
    RemembersTheLedger(policy, y, a);
    RemembersTheLedger(policy, mid, b);
    LeaseStays(policy, both, after, second);
    CloseRestores(policy, z, first);
    CloseRestores(policy, z, second);
    CloseRestores(policy, Step(policy, z, CloseScope(first)), second);
    CloseRestores(policy, Step(policy, z, CloseScope(second)), first);
    RunOfTwo(policy, z, CloseScope(first), CloseScope(second));
    RunOfTwo(policy, z, CloseScope(second), CloseScope(first));
  }

  lemma FirstStays(policy: Policy, y: System, a: Opening, between: seq<Event>, b: Opening, after: seq<Event>)
    requires HandlesInv(y) && OpensScope(policy, y, a)
    requires HandlesInv(Run(policy, AfterOpening(policy, y, a), between))
    requires HandlesInv(AfterOpening(policy, Run(policy, AfterOpening(policy, y, a), between), b))
    requires IsLease(TwoScopes(policy, y, a, between, b, after), LeaseId(y))
    requires OpensScope(policy, Run(policy, AfterOpening(policy, y, a), between), b)
    ensures var mid := Run(policy, AfterOpening(policy, y, a), between);
      LeaseId(y) < mid.nextId && LeaseId(mid) < AfterOpening(policy, mid, b).nextId
      && TwoScopes(policy, y, a, between, b, after).handles[LeaseId(y)]
         == AfterOpening(policy, y, a).handles[LeaseId(y)]
  {
    var inside := AfterOpening(policy, y, a);
    var mid := Run(policy, inside, between);
    var both := AfterOpening(policy, mid, b);
    IdsGrow(policy, inside, between);
    IdsGrow(policy, mid, OpeningEvents(mid, b));
    assert HandlesInv(inside) by { OpenIsReadThenOpen(policy, y, a); }
    LeaseStays(policy, both, after, LeaseId(y));
    LeaseStays(policy, mid, OpeningEvents(mid, b), LeaseId(y));
    LeaseStays(policy, inside, between, LeaseId(y));
  }

  lemma {:induction false} IdsGrow(policy: Policy, y: System, events: seq<Event>)
    ensures y.nextId <= Run(policy, y, events).nextId
    decreases |events|
  {
    if events != [] {
      LeaseWasThere(policy, y, events[0], 0);
      IdsGrow(policy, Step(policy, y, events[0]), events[1..]);
    }
  }

  // ---------------------------------------------------------------- a run that loses bytes

  const ROOMY := Policy(100, 1000, 0)
  const ONE_BUILD: seq<Event> := [EnqueueBuild("r", FullIndex, 0), PollWaiter(1, 0)]

  lemma OneBuildIsGranted()
    ensures var y := Run(ROOMY, START, ONE_BUILD);
      Numbers(y.state) == Some((0, 0)) && y.state.cancelled == {} && HandlesInv(y)
      && IsShare(y, 0) && y.handles[0].permit.ticket == 1
  {
    var queued := Step(ROOMY, START, ONE_BUILD[0]);
    RunOfTwo(ROOMY, START, ONE_BUILD[0], ONE_BUILD[1]);
    assert queued.state.waiters == [QueuedBuild(1, "r", FullIndex, 0)];
    assert NextWaiterIndex(queued.state.waiters, None) == Some(0);
    RunKeepsPermits(ROOMY, START, ONE_BUILD);
  }

  /** Ten bytes are claimed, then five; closed in that order the ten stay in the ledger of a build without scopes. */
  lemma CrossedScopesLoseBytes()
    ensures var y := Run(ROOMY, START, ONE_BUILD);
      var a, b := Opening(0, Nested, 10, 0, 0), Opening(0, Nested, 5, 0, 0);
      var mid := Run(ROOMY, AfterOpening(ROOMY, y, a), []);
      var z := TwoScopes(ROOMY, y, a, [], b, []);
      Numbers(y.state) == Some((0, 0))
      && Numbers(Run(ROOMY, z, [CloseScope(LeaseId(y)), CloseScope(LeaseId(mid))]).state) == Some((10, 0))
  {
    var y := Run(ROOMY, START, ONE_BUILD);
    var a, b := Opening(0, Nested, 10, 0, 0), Opening(0, Nested, 5, 0, 0);
    var mid := AfterOpening(ROOMY, y, a);
    OneBuildIsGranted();
    OpenIsReadThenOpen(ROOMY, y, a);
    ReserveFacts(y.state, ROOMY, y.handles[0].permit, 10, 0, 0, 0, false);
    assert Run(ROOMY, mid, []) == mid;
    OpenIsReadThenOpen(ROOMY, mid, b);
    ReserveFacts(mid.state, ROOMY, y.handles[0].permit, 15, 0, 0, 0, false);
    LeaseStaysBeside(ROOMY, mid, b, LeaseId(y));
    CrossedScopesRestoreIff(ROOMY, ONE_BUILD, a, [], b, []);
  }

  /** Opening another scope leaves a lease alone. */
  lemma LeaseStaysBeside(policy: Policy, y: System, o: Opening, id: nat)
    requires HandlesInv(y) && IsShare(y, o.share) && IsLease(y, id)
    ensures IsLease(AfterOpening(policy, y, o), id)
  {
    RunOfTwo(policy, y, ReadLedger(o.share), OpeningEvents(y, o)[1]);
  }
}
