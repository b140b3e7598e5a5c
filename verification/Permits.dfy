/**
 The life of a permit, over every run of the coordinator: the slot is taken exactly
 while a share of the granted permit is alive, and it is freed once, by the last one.
 */
module Permits {
  import opened Basics
  import opened Admission
  import opened Ledger
  import opened CoordinatorRuns

  // ---------------------------------------------------------------- the invariant

  /** Which build holds the slot, apart from its ledger. */
  function Holder(active: Option<ActiveBuild>): Option<(Ticket, Root, Token)> {
    if active.Some? then Some((active.value.ticket, active.value.root, active.value.token)) else None
  }

  predicate Carries(permit: Permit, holder: Option<(Ticket, Root, Token)>) {
    holder == Some((permit.ticket, permit.root, permit.token))
  }

  function SharesOf(holder: Option<(Ticket, Root, Token)>, n: nat): map<Ticket, nat> {
    if holder.Some? then map[holder.value.0 := n] else map[]
  }

  ghost predicate HandlesInv(y: System) {
    var holder := Holder(y.state.active);
    (holder.Some? <==> |y.handles| > 0)
    && (forall h :: h in y.handles ==> h < y.nextId && Carries(y.handles[h].permit, holder))
    && y.shares == SharesOf(holder, |y.handles|)
    && (forall r :: r in y.pending ==>
          r < y.nextId && IsShare(y, y.pending[r].holder) && Carries(y.pending[r].permit, holder))
  }

  /** Tickets ascend along the queue, and the active one has left it. */
  ghost predicate QueueInv(s: State) {
    (forall i, j :: 0 <= i < j < |s.waiters| ==> s.waiters[i].ticket < s.waiters[j].ticket)
    && (forall i :: 0 <= i < |s.waiters| ==> s.waiters[i].ticket <= s.nextTicket)
    && (s.active.Some? ==> s.active.value.ticket <= s.nextTicket && Unqueued(s, s.active.value.ticket))
  }

  ghost predicate Unqueued(s: State, ticket: Ticket) {
    forall i :: 0 <= i < |s.waiters| ==> s.waiters[i].ticket != ticket
  }

  ghost predicate PermitInv(y: System) { HandlesInv(y) && QueueInv(y.state) }

  // ---------------------------------------------------------------- the queue

  /** `t`'s queue is `s`'s with some builds left out. */
  ghost predicate Thinned(s: State, t: State) {
    exists pick: seq<nat> :: PicksFrom(pick, s.waiters, t.waiters)
  }

  ghost predicate PicksFrom(pick: seq<nat>, before: seq<QueuedBuild>, after: seq<QueuedBuild>) {
    |pick| == |after|
    && (forall i :: 0 <= i < |pick| ==> pick[i] < |before| && after[i] == before[pick[i]])
    && (forall i, j :: 0 <= i < j < |pick| ==> pick[i] < pick[j])
  }

  lemma RemovalThins(s: State, ticket: Ticket)
    ensures Thinned(s, RemoveWaiter(s, ticket))
  {
    var n := FirstTicket(s.waiters, ticket, 0);
    if n < |s.waiters| {
      WithoutThins(s.waiters, n);
    } else {
      var pick := seq(|s.waiters|, i => i);
      assert PicksFrom(pick, s.waiters, s.waiters);
    }
  }

  lemma WithoutThins(q: seq<QueuedBuild>, n: nat)
    requires n < |q|
    ensures exists pick: seq<nat> :: PicksFrom(pick, q, Without(q, n))
  {
    var pick := seq(|q| - 1, i => if i < n then i else i + 1);
    assert PicksFrom(pick, q, Without(q, n));
  }

  function Shifted(pick: seq<nat>): (r: seq<nat>) {
    seq(|pick|, i requires 0 <= i < |pick| => pick[i] + 1)
  }

  lemma ShiftedPicks(pick: seq<nat>, before: seq<QueuedBuild>, after: seq<QueuedBuild>)
    requires before != [] && PicksFrom(pick, before[1..], after)
    ensures PicksFrom(Shifted(pick), before, after)
    ensures PicksFrom([0] + Shifted(pick), before, [before[0]] + after)
  {
    assert PicksFrom(Shifted(pick), before, after);
    var all, kept: seq<QueuedBuild> := [0] + Shifted(pick), [before[0]] + after;
    assert forall i :: 0 < i < |all| ==> all[i] == Shifted(pick)[i - 1] && kept[i] == after[i - 1];
  }

  lemma {:induction false} OtherRootsThin(q: seq<QueuedBuild>, root: Root)
    ensures exists pick: seq<nat> :: PicksFrom(pick, q, OfOtherRoots(q, root))
  {
    if q == [] {
      assert PicksFrom([], q, OfOtherRoots(q, root));
    } else {
      OtherRootsThin(q[1..], root);
      var rest: seq<nat> :| PicksFrom(rest, q[1..], OfOtherRoots(q[1..], root));
      ShiftedPicks(rest, q, OfOtherRoots(q[1..], root));
      if q[0].root != root {
        assert PicksFrom([0] + Shifted(rest), q, OfOtherRoots(q, root));
      } else {
        assert [] + OfOtherRoots(q[1..], root) == OfOtherRoots(q[1..], root);
        assert PicksFrom(Shifted(rest), q, OfOtherRoots(q, root));
      }
    }
  }

  predicate SameQueue(s: State, t: State) {
    t.waiters == s.waiters && t.nextTicket == s.nextTicket && t.lastGrantedRoot == s.lastGrantedRoot && NoNewBuild(s, t)
  }

  predicate NoNewBuild(s: State, t: State) {
    t.active.Some? ==> s.active.Some? && t.active.value.ticket == s.active.value.ticket
  }

  /** The invariant survives, and a ticket that has left the queue stays out. */
  ghost predicate QueueMoves(s: State, t: State) {
    QueueInv(t) && s.nextTicket <= t.nextTicket
    && forall ticket: nat :: ticket <= s.nextTicket && Unqueued(s, ticket) ==> Unqueued(t, ticket)
  }

  lemma SameQueueMoves(s: State, t: State)
    requires QueueInv(s) && SameQueue(s, t)
    ensures QueueMoves(s, t)
  {
  }

  lemma ThinningMoves(s: State, t: State)
    requires QueueInv(s) && Thinned(s, t) && t.nextTicket == s.nextTicket && NoNewBuild(s, t)
    ensures QueueMoves(s, t)
  {
  }

  lemma GrantMoves(s: State, n: nat)
    requires QueueInv(s) && n < |s.waiters|
    ensures QueueMoves(s, Grant(s, n).0)
  {
    WithoutThins(s.waiters, n);
  }

  lemma EnqueueMoves(s: State, root: Root, kind: BuildKind, token: Token)
    requires QueueInv(s)
    ensures QueueMoves(s, Enqueue(s, root, kind, token).0)
  {
    if !s.shuttingDown {
      var build := QueuedBuild(s.nextTicket + 1, root, kind, token);
      JoinMoves(s, Enqueue(s, root, kind, token).0, build);
    }
  }

  lemma JoinMoves(s: State, t: State, build: QueuedBuild)
    requires QueueInv(s) && build.ticket == t.nextTicket == s.nextTicket + 1
    requires t.waiters == s.waiters + [build] && NoNewBuild(s, t)
    ensures QueueMoves(s, t)
  {
    var n := |s.waiters|;
    assert t.waiters[n] == build && forall i :: 0 <= i < n ==> t.waiters[i] == s.waiters[i];
  }

  lemma PollMoves(s: State, ticket: Ticket, token: Token)
    requires QueueInv(s)
    ensures QueueMoves(s, Poll(s, ticket, token).0)
  {
    RemovalThins(s, ticket);
    var (t, r) := Poll(s, ticket, token);
    if r.Granted? {
      GrantMoves(s, NextWaiterIndex(s.waiters, s.lastGrantedRoot).value);
    } else if r.Refused? {
      assert t.waiters == RemoveWaiter(s, ticket).waiters;
      ThinningMoves(s, t);
    }
  }

  // ---------------------------------------------------------------- the handles

  /** Nothing of what the callers hold has changed. */
  ghost predicate Quiet(y: System, z: System) {
    z.handles == y.handles && z.shares == y.shares && z.pending == y.pending && y.nextId <= z.nextId
    && Holder(z.state.active) == Holder(y.state.active)
  }

  lemma QuietKeepsHandles(y: System, z: System)
    requires HandlesInv(y) && Quiet(y, z)
    ensures HandlesInv(z)
  {
  }

  lemma HandKeepsHandles(y: System, h: Handle)
    requires HandlesInv(y) && Carries(h.permit, Holder(y.state.active))
    ensures HandlesInv(Hand(y, h))
  {
    assert y.nextId !in y.handles;
  }

  lemma FirstHandle(y: System, s: State, permit: Permit)
    requires HandlesInv(y) && y.state.active.None? && Carries(permit, Holder(s.active))
    ensures HandlesInv(Hand(WithState(y, s), Share(permit)))
  {
    assert y.handles == map[] && y.pending == map[];
  }

  lemma OneHandleLess(handles: map<nat, Handle>, id: nat)
    requires id in handles
    ensures |handles - {id}| == |handles| - 1
    ensures |handles| == 1 <==> handles.Keys == {id}
  {
    var rest := handles - {id};
    assert rest.Keys == handles.Keys - {id};
    assert |rest| == |rest.Keys| && |handles| == |handles.Keys|;
    if |handles| == 1 {
      assert rest.Keys == {} && handles.Keys == rest.Keys + {id};
    }
  }

  lemma DropKeepsHandles(y: System, id: nat)
    requires HandlesInv(y)
    ensures HandlesInv(Dropped(y, id))
    ensures Droppable(y, id) ==>
      (Dropped(y, id).state.active.None? <==> y.handles.Keys == {id})
  {
    if Droppable(y, id) {
      OneHandleLess(y.handles, id);
      if |y.handles| == 1 {
        LastHandle(y, id);
      } else {
        AnotherHandle(y, id);
      }
    }
  }

  lemma LastHandle(y: System, id: nat)
    requires HandlesInv(y) && Droppable(y, id) && y.handles.Keys == {id} && |y.handles| == 1
    ensures HandlesInv(Dropped(y, id)) && Dropped(y, id).state.active.None?
  {
    assert y.pending == map[];
    assert y.handles - {id} == map[];
  }

  lemma AnotherHandle(y: System, id: nat)
    requires HandlesInv(y) && Droppable(y, id) && |y.handles| > 1 && |y.handles - {id}| == |y.handles| - 1
    ensures HandlesInv(Dropped(y, id)) && Dropped(y, id).state == y.state && y.state.active.Some?
  {
    var z := Dropped(y, id);
    assert z == y.(handles := y.handles - {id}, shares := z.shares);
    assert z.shares == SharesOf(Holder(y.state.active), |z.handles|);
  }

  lemma CloseKeepsHandles(y: System, id: nat)
    requires HandlesInv(y)
    ensures HandlesInv(Closed(y, id))
  {
    if IsLease(y, id) {
      assert Closed(y, id).handles.Keys == y.handles.Keys;
      assert |Closed(y, id).handles| == |y.handles.Keys|;
    }
  }

  // ---------------------------------------------------------------- every step

  lemma PollKeepsHandles(y: System, ticket: Ticket, token: Token)
    requires HandlesInv(y)
    ensures HandlesInv(AfterPoll(y, ticket, token))
  {
    var (s, r) := Poll(y.state, ticket, token);
    if r.Granted? {
      FirstHandle(y, s, r.permit);
    } else {
      QuietKeepsHandles(y, WithState(y, s));
    }
  }

  lemma OpenKeepsHandles(y: System, policy: Policy, read: nat, scope: Scope, bytes: nat, sampled: nat, now: nat,
                         late: bool)
    requires HandlesInv(y)
    ensures HandlesInv(Opened(y, policy, read, scope, bytes, sampled, now, late))
  {
    if read in y.pending {
      var d := y.pending[read];
      var (s, r) := Open(y.state, policy, d.permit, scope, d.reserved, d.retained, bytes, sampled, now, late);
      var done := y.(state := s, pending := y.pending - {read});
      assert Holder(s.active) == Holder(y.state.active);
      assert HandlesInv(done);
      if r.Leased? {
        HandKeepsHandles(done, Lease(d.permit, d.reserved, d.retained));
      }
    }
  }

  lemma ShareKeepsHandles(y: System, id: nat, stage: BuildKind)
    requires HandlesInv(y)
    ensures HandlesInv(Shared(y, id, stage))
  {
    if IsShare(y, id) {
      HandKeepsHandles(y, Share(y.handles[id].permit.(stage := stage)));
    }
  }

  lemma ReadKeepsHandles(y: System, id: nat)
    requires HandlesInv(y)
    ensures HandlesInv(LedgerReadBy(y, id))
  {
  }

  /** The events that neither hand out nor take back a share. */
  predicate Still(e: Event) {
    !e.PollWaiter? && !e.ShareHandle? && !e.DropHandle? && !e.ReadLedger? && !e.OpenScope? && !e.CloseScope?
  }

  lemma AskIsQuiet(y: System, root: Root, epoch: nat)
    ensures Quiet(y, Asked(y, root, epoch)) && SameQueue(y.state, Asked(y, root, epoch).state)
  {
  }

  lemma BeginIsQuiet(y: System, w: nat)
    ensures Quiet(y, Begun(y, w)) && SameQueue(y.state, Begun(y, w).state)
  {
  }

  lemma EndIsQuiet(y: System, w: nat, retry: bool)
    ensures Quiet(y, Ended(y, w, retry)) && SameQueue(y.state, Ended(y, w, retry).state)
  {
  }

  lemma CompactionIsQuiet(policy: Policy, y: System, e: Event)
    requires OfCompaction(e)
    ensures Quiet(y, Step(policy, y, e)) && SameQueue(y.state, Step(policy, y, e).state)
  {
    match e
    case AskCompaction(root, epoch) => AskIsQuiet(y, root, epoch);
    case BeginCompaction(w) => BeginIsQuiet(y, w);
    case EndCompaction(w, retry) => EndIsQuiet(y, w, retry);
  }

  lemma ClaimIsQuiet(s: State, policy: Policy, permit: Permit, reserved: nat, retained: nat, sampled: nat, now: nat,
                     late: bool)
    ensures var t := Reserve(s, policy, permit, reserved, retained, sampled, now, late).0;
      SameQueue(s, t) && Holder(t.active) == Holder(s.active)
  {
  }

  predicate OfLedger(e: Event) { e.ReserveBytes? || e.RetainBytes? }

  lemma LedgerIsQuiet(policy: Policy, y: System, e: Event)
    requires OfLedger(e)
    ensures Quiet(y, Step(policy, y, e)) && SameQueue(y.state, Step(policy, y, e).state)
  {
    match e
    case ReserveBytes(id, reserved, retained, sampled, now, late) =>
      if IsShare(y, id) {
        ClaimIsQuiet(y.state, policy, y.handles[id].permit, reserved, retained, sampled, now, late);
      }
    case RetainBytes(id, bytes, sampled, now, late) =>
      if IsLease(y, id) {
        var h := y.handles[id];
        ClaimIsQuiet(y.state, policy, h.permit, h.parentReserved, SatAdd(h.parentRetained, bytes), sampled, now, late);
      }
  }

  lemma StillIsQuiet(policy: Policy, y: System, e: Event)
    requires Still(e)
    ensures Quiet(y, Step(policy, y, e))
  {
    if OfCompaction(e) {
      CompactionIsQuiet(policy, y, e);
    } else if OfLedger(e) {
      LedgerIsQuiet(policy, y, e);
    }
  }

  lemma StepKeepsHandles(policy: Policy, y: System, e: Event)
    requires HandlesInv(y)
    ensures HandlesInv(Step(policy, y, e))
  {
    if Still(e) {
      StillIsQuiet(policy, y, e);
      QuietKeepsHandles(y, Step(policy, y, e));
    } else {
      match e
      case PollWaiter(ticket, token) => PollKeepsHandles(y, ticket, token);
      case ShareHandle(id, stage) => ShareKeepsHandles(y, id, stage);
      case DropHandle(id) => DropKeepsHandles(y, id);
      case ReadLedger(id) => ReadKeepsHandles(y, id);
      case OpenScope(read, scope, bytes, sampled, now, late) =>
        OpenKeepsHandles(y, policy, read, scope, bytes, sampled, now, late);
      case CloseScope(id) => CloseKeepsHandles(y, id);
    }
  }

  lemma StepMovesQueue(policy: Policy, y: System, e: Event)
    requires QueueInv(y.state)
    ensures QueueMoves(y.state, Step(policy, y, e).state)
  {
    var s, t := y.state, Step(policy, y, e).state;
    match e
    case EnqueueBuild(root, kind, token) => EnqueueMoves(s, root, kind, token);
    case PollWaiter(ticket, token) => PollMoves(s, ticket, token);
    case TimeOut(ticket, now) =>
      RemovalThins(s, ticket);
      assert t.waiters == RemoveWaiter(s, ticket).waiters;
      ThinningMoves(s, t);
    case ForgetRoot(root) =>
      OtherRootsThin(s.waiters, root);
      ThinningMoves(s, t);
    case _ =>
      RestKeepsQueue(policy, y, e);
      SameQueueMoves(s, t);
  }

  lemma RestKeepsQueue(policy: Policy, y: System, e: Event)
    requires !e.EnqueueBuild? && !e.PollWaiter? && !e.TimeOut? && !e.ForgetRoot?
    ensures SameQueue(y.state, Step(policy, y, e).state)
  {
    if OfCompaction(e) {
      CompactionIsQuiet(policy, y, e);
    } else if OfLedger(e) {
      LedgerIsQuiet(policy, y, e);
    } else if e.OpenScope? {
      OpenKeepsQueue(y, policy, e.read, e.scope, e.bytes, e.sampled, e.now, e.late);
    }
  }

  lemma OpenKeepsQueue(y: System, policy: Policy, read: nat, scope: Scope, bytes: nat, sampled: nat, now: nat,
                       late: bool)
    ensures var z := Opened(y, policy, read, scope, bytes, sampled, now, late);
      SameQueue(y.state, z.state) && Holder(z.state.active) == Holder(y.state.active)
  {
    if read in y.pending {
      var d := y.pending[read];
      ClaimIsQuiet(y.state, policy, d.permit, Estimate(scope, d.reserved, bytes), d.retained, sampled, now, late);
    }
  }

  lemma {:induction false} RunKeepsPermits(policy: Policy, y: System, events: seq<Event>)
    requires PermitInv(y)
    ensures PermitInv(Run(policy, y, events))
    decreases |events|
  {
    if events != [] {
      StepKeepsHandles(policy, y, events[0]);
      StepMovesQueue(policy, y, events[0]);
      RunKeepsPermits(policy, Step(policy, y, events[0]), events[1..]);
    }
  }

  // ---------------------------------------------------------------- the promises

  /**
   In every run: a build is active exactly while some share or lease of its permit is
   alive; every live one carries the active build's ticket, root and token; and the
   reference count is the number of them.
   */
  lemma ActiveIffHeld(policy: Policy, events: seq<Event>)
    ensures var y := Run(policy, START, events);
      (y.state.active.Some? <==> exists h :: h in y.handles)
      && (forall h :: h in y.handles ==> Carries(y.handles[h].permit, Holder(y.state.active)))
      && (y.state.active.Some? ==>
            y.state.active.value.ticket in y.shares && y.shares[y.state.active.value.ticket] == |y.handles|)
  {
    RunKeepsPermits(policy, START, events);
    var y := Run(policy, START, events);
    if y.state.active.Some? {
      var h :| h in y.handles.Keys;
      assert h in y.handles;
    } else {
      assert y.handles == map[];
    }
  }

  /** A live permit is never stale, whatever it asks for. */
  lemma NeverStale(policy: Policy, events: seq<Event>, id: nat,
                   reserved: nat, retained: nat, sampled: nat, now: nat, late: bool)
    requires id in Run(policy, START, events).handles
    ensures var y := Run(policy, START, events);
      var permit := y.handles[id].permit;
      Holds(y.state, permit.ticket)
      && Reserve(y.state, policy, permit, reserved, retained, sampled, now, late).1 != NotReserved(StalePermit)
  {
    RunKeepsPermits(policy, START, events);
  }

  /** The slot becomes free in one way only: the last handle is a share, and it is dropped. */
  lemma FreedByTheLastDrop(policy: Policy, events: seq<Event>, e: Event)
    ensures var y := Run(policy, START, events);
      y.state.active.Some? ==>
        (Step(policy, y, e).state.active.None?
         <==> e.DropHandle? && Droppable(y, e.id) && y.handles.Keys == {e.id})
  {
    RunKeepsPermits(policy, START, events);
    var y := Run(policy, START, events);
    if e.DropHandle? {
      DropKeepsHandles(y, e.id);
    } else if y.state.active.Some? {
      NothingElseFrees(policy, y, e);
    }
  }

  lemma NothingElseFrees(policy: Policy, y: System, e: Event)
    requires y.state.active.Some? && !e.DropHandle?
    ensures Holder(Step(policy, y, e).state.active) == Holder(y.state.active)
  {
    if Still(e) {
      StillIsQuiet(policy, y, e);
    } else if e.OpenScope? {
      OpenKeepsQueue(y, policy, e.read, e.scope, e.bytes, e.sampled, e.now, e.late);
    }
  }

  /** The ticket whose slot an event frees, if it frees one. */
  ghost function FreedBy(policy: Policy, y: System, e: Event): seq<Ticket> {
    if y.state.active.Some? && Step(policy, y, e).state.active.None? then [y.state.active.value.ticket] else []
  }

  ghost function Releases(policy: Policy, y: System, events: seq<Event>): seq<Ticket>
    decreases |events|
  {
    if events == [] then []
    else FreedBy(policy, y, events[0]) + Releases(policy, Step(policy, y, events[0]), events[1..])
  }

  function Current(s: State): seq<Ticket> {
    if s.active.Some? then [s.active.value.ticket] else []
  }

  lemma StepBalances(policy: Policy, y: System, e: Event)
    ensures Current(y.state) + GrantedBy(y, e) == FreedBy(policy, y, e) + Current(Step(policy, y, e).state)
  {
    if e.PollWaiter? {
      var (s, r) := Poll(y.state, e.ticket, e.token);
    } else if y.state.active.Some? && !e.DropHandle? {
      NothingElseFrees(policy, y, e);
    } else if OfCompaction(e) {
      CompactionIsQuiet(policy, y, e);
    }
  }

  lemma Chained<T>(a: seq<T>, b: seq<T>, c: seq<T>, d: seq<T>, e: seq<T>, f: seq<T>, g: seq<T>)
    requires a + b == c + d && d + e == f + g
    ensures a + (b + e) == (c + f) + g
  {
    assert a + (b + e) == (a + b) + e;
    assert (c + d) + e == c + (d + e);
    assert c + (f + g) == (c + f) + g;
  }

  lemma {:induction false} GrantsBalanceReleases(policy: Policy, y: System, events: seq<Event>)
    ensures Current(y.state) + Grants(policy, y, events)
         == Releases(policy, y, events) + Current(Run(policy, y, events).state)
    decreases |events|
  {
    if events != [] {
      var e, rest, z := events[0], events[1..], Step(policy, y, events[0]);
      StepBalances(policy, y, e);
      GrantsBalanceReleases(policy, z, rest);
      Chained(Current(y.state), GrantedBy(y, e), FreedBy(policy, y, e), Current(z.state),
              Grants(policy, z, rest), Releases(policy, z, rest), Current(Run(policy, z, rest).state));
    }
  }

  /** No repetition, and nothing from `past`. */
  ghost predicate Novel(g: seq<Ticket>, past: set<Ticket>) {
    (forall i :: 0 <= i < |g| ==> g[i] !in past) && (forall i, j :: 0 <= i < j < |g| ==> g[i] != g[j])
  }

  lemma PrependNovel(t: Ticket, g: seq<Ticket>, past: set<Ticket>)
    requires t !in past && Novel(g, past + {t})
    ensures Novel([t] + g, past)
  {
    var all := [t] + g;
    forall i | 0 <= i < |all| ensures all[i] !in past && (i > 0 ==> all[i] != t) {
      assert i > 0 ==> all[i] == g[i - 1];
    }
    forall i, j | 0 <= i < j < |all| ensures all[i] != all[j] {
      assert all[j] == g[j - 1] && (i > 0 ==> all[i] == g[i - 1]);
    }
  }

  ghost predicate AllLeft(past: set<Ticket>, s: State) {
    forall t :: t in past ==> t <= s.nextTicket && Unqueued(s, t)
  }

  lemma {:induction false} NoTicketTwice(policy: Policy, y: System, events: seq<Event>, past: set<Ticket>)
    requires QueueInv(y.state) && AllLeft(past, y.state)
    ensures Novel(Grants(policy, y, events), past)
    decreases |events|
  {
    if events != [] {
      var e, z := events[0], Step(policy, y, events[0]);
      StepMovesQueue(policy, y, e);
      assert AllLeft(past, z.state);
      if GrantedBy(y, e) != [] {
        GrantedLeaves(policy, y, e);
        NoTicketTwice(policy, z, events[1..], past + {e.ticket});
        PrependNovel(e.ticket, Grants(policy, z, events[1..]), past);
      } else {
        NoTicketTwice(policy, z, events[1..], past);
        assert Grants(policy, y, events) == Grants(policy, z, events[1..]);
      }
    }
  }

  lemma GrantedLeaves(policy: Policy, y: System, e: Event)
    requires QueueInv(y.state) && GrantedBy(y, e) != []
    ensures e.PollWaiter? && GrantedBy(y, e) == [e.ticket] && e.ticket <= y.state.nextTicket
    ensures !Unqueued(y.state, e.ticket) && Unqueued(Step(policy, y, e).state, e.ticket)
  {
  }

  /**
   In every run the tickets granted, in order, are the tickets released, in order,
   followed by the active one: each release belongs to one grant, none is repeated or
   lost, and no second grant overlaps a live build. No ticket is granted twice.
   */
  lemma ReleasedExactlyOnce(policy: Policy, events: seq<Event>)
    ensures Grants(policy, START, events)
         == Releases(policy, START, events) + Current(Run(policy, START, events).state)
    ensures var g := Grants(policy, START, events);
      forall i, j :: 0 <= i < j < |g| ==> g[i] != g[j]
  {
    GrantsBalanceReleases(policy, START, events);
    NoTicketTwice(policy, START, events, {});
  }
}
