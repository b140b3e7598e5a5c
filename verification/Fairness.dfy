/**
 Fairness between workspace roots: how many grants to others a waiting build can see,
 over every run, whatever arrives behind it and whoever leaves ahead of it
 (build_coordinator.rs 527-579, 726-754, 774-789).
 */
module Fairness {
  import opened Basics
  import opened Admission
  import opened CoordinatorRuns
  import opened Permits

  predicate Waits(s: State, ticket: Ticket) {
    FirstTicket(s.waiters, ticket, 0) < |s.waiters|
  }

  function Position(s: State, ticket: Ticket): (p: nat)
    requires Waits(s, ticket)
    ensures p < |s.waiters| && s.waiters[p].ticket == ticket
  {
    FirstTicketFacts(s.waiters, ticket, 0);
    FirstTicket(s.waiters, ticket, 0)
  }

  predicate HeadHadTheSlot(s: State) {
    s.waiters != [] && Some(s.waiters[0].root) == s.lastGrantedRoot
  }

  /** Twice the builds ahead, and one more when the head has to let another root pass. */
  function Patience(s: State, ticket: Ticket): nat
    requires Waits(s, ticket)
  {
    2 * Position(s, ticket) + if HeadHadTheSlot(s) then 1 else 0
  }

  lemma WaitsIffQueued(s: State, ticket: Ticket)
    ensures Waits(s, ticket) <==> !Unqueued(s, ticket)
  {
    FirstTicketFacts(s.waiters, ticket, 0);
  }

  lemma PositionIs(s: State, ticket: Ticket, p: nat)
    requires QueueInv(s) && p < |s.waiters| && s.waiters[p].ticket == ticket
    ensures Waits(s, ticket) && Position(s, ticket) == p
  {
    FirstTicketFacts(s.waiters, ticket, 0);
  }

  // ---------------------------------------------------------------- one step

  /** Leaving builds out of the queue never moves the others back. */
  lemma ThinningIsPatient(s: State, t: State, ticket: Ticket)
    requires QueueInv(s) && QueueInv(t) && Thinned(s, t) && t.lastGrantedRoot == s.lastGrantedRoot
    requires Waits(s, ticket) && Waits(t, ticket)
    ensures Patience(t, ticket) <= Patience(s, ticket)
  {
    var pick: seq<nat> :| PicksFrom(pick, s.waiters, t.waiters);
    var p, q := Position(s, ticket), Position(t, ticket);
    PositionIs(s, ticket, pick[q]);
    PicksAreFar(pick, s.waiters, t.waiters, q);
    if q == p {
      assert pick[0] == 0 by {
        PicksAreFar(pick, s.waiters, t.waiters, 0);
        PicksAreClose(pick, s.waiters, t.waiters, q);
      }
    }
  }

  lemma {:induction false} PicksAreFar(pick: seq<nat>, before: seq<QueuedBuild>, after: seq<QueuedBuild>, q: nat)
    requires PicksFrom(pick, before, after) && q < |pick|
    ensures q <= pick[q]
  {
    if q > 0 {
      PicksAreFar(pick, before, after, q - 1);
    }
  }

  lemma {:induction false} PicksAreClose(pick: seq<nat>, before: seq<QueuedBuild>, after: seq<QueuedBuild>, q: nat)
    requires PicksFrom(pick, before, after) && q < |pick|
    ensures pick[0] + q <= pick[q]
  {
    if q > 0 {
      PicksAreClose(pick, before, after, q - 1);
    }
  }

  lemma SameQueueIsPatient(s: State, t: State, ticket: Ticket)
    requires t.waiters == s.waiters && t.lastGrantedRoot == s.lastGrantedRoot && Waits(s, ticket)
    ensures Waits(t, ticket) && Patience(t, ticket) == Patience(s, ticket)
  {
  }

  /** A grant to another build uses up some patience. */
  lemma GrantTakesPatience(s: State, ticket: Ticket)
    requires QueueInv(s) && Waits(s, ticket)
    requires NextWaiterIndex(s.waiters, s.lastGrantedRoot).Some?
    requires NextWaiterIndex(s.waiters, s.lastGrantedRoot).value != Position(s, ticket)
    ensures var t := Grant(s, NextWaiterIndex(s.waiters, s.lastGrantedRoot).value).0;
      Waits(t, ticket) && Patience(t, ticket) < Patience(s, ticket)
  {
    var n, p := NextWaiterIndex(s.waiters, s.lastGrantedRoot).value, Position(s, ticket);
    var t := Grant(s, n).0;
    NextWaiterIsFair(s.waiters, s.lastGrantedRoot);
    GrantMoves(s, n);
    if n < p {
      assert t.waiters[p - 1] == s.waiters[p];
      PositionIs(t, ticket, p - 1);
    } else {
      assert t.waiters[p] == s.waiters[p] && t.waiters[0] == s.waiters[0];
      PositionIs(t, ticket, p);
    }
  }

  lemma EnqueueIsPatient(s: State, root: Root, kind: BuildKind, token: Token, ticket: Ticket)
    requires QueueInv(s) && Waits(s, ticket)
    ensures var t := Enqueue(s, root, kind, token).0;
      Waits(t, ticket) && Patience(t, ticket) == Patience(s, ticket)
  {
    var t := Enqueue(s, root, kind, token).0;
    EnqueueMoves(s, root, kind, token);
    var p := Position(s, ticket);
    assert t.waiters[p] == s.waiters[p] && t.waiters[0] == s.waiters[0];
    PositionIs(t, ticket, p);
  }

  lemma PollIsPatient(s: State, polled: Ticket, token: Token, ticket: Ticket)
    requires QueueInv(s) && Waits(s, ticket) && Waits(Poll(s, polled, token).0, ticket)
    ensures var (t, r) := Poll(s, polled, token);
      Patience(t, ticket) + (if r.Granted? then 1 else 0) <= Patience(s, ticket)
  {
    var (t, r) := Poll(s, polled, token);
    PollMoves(s, polled, token);
    if r.Granted? {
      var n := NextWaiterIndex(s.waiters, s.lastGrantedRoot).value;
      if n == Position(s, ticket) {
        GrantedIsGone(s, n);
        WaitsIffQueued(t, ticket);
      }
      GrantTakesPatience(s, ticket);
    } else if r.Refused? {
      RemovalThins(s, polled);
      assert t.waiters == RemoveWaiter(s, polled).waiters;
      ThinningIsPatient(s, t, ticket);
    }
  }

  lemma GrantedIsGone(s: State, n: nat)
    requires QueueInv(s) && n < |s.waiters|
    ensures Unqueued(Grant(s, n).0, s.waiters[n].ticket)
  {
    GrantMoves(s, n);
  }

  lemma StepIsPatient(policy: Policy, y: System, e: Event, ticket: Ticket)
    requires QueueInv(y.state) && Waits(y.state, ticket) && Waits(Step(policy, y, e).state, ticket)
    ensures Patience(Step(policy, y, e).state, ticket) + |GrantedBy(y, e)| <= Patience(y.state, ticket)
  {
    var s, t := y.state, Step(policy, y, e).state;
    StepMovesQueue(policy, y, e);
    match e
    case EnqueueBuild(root, kind, token) => EnqueueIsPatient(s, root, kind, token, ticket);
    case PollWaiter(polled, token) => PollIsPatient(s, polled, token, ticket);
    case TimeOut(gone, now) =>
      RemovalThins(s, gone);
      assert t.waiters == RemoveWaiter(s, gone).waiters;
      ThinningIsPatient(s, t, ticket);
    case ForgetRoot(root) =>
      OtherRootsThin(s.waiters, root);
      ThinningIsPatient(s, t, ticket);
    case _ =>
      RestKeepsQueue(policy, y, e);
      SameQueueIsPatient(s, t, ticket);
  }

  // ---------------------------------------------------------------- whole runs

  lemma {:induction false} OutStaysOut(policy: Policy, y: System, events: seq<Event>, ticket: Ticket)
    requires QueueInv(y.state) && ticket <= y.state.nextTicket && !Waits(y.state, ticket)
    ensures !Waits(Run(policy, y, events).state, ticket)
    decreases |events|
  {
    if events != [] {
      var z := Step(policy, y, events[0]);
      StepMovesQueue(policy, y, events[0]);
      WaitsIffQueued(y.state, ticket);
      WaitsIffQueued(z.state, ticket);
      OutStaysOut(policy, z, events[1..], ticket);
    }
  }

  lemma {:induction false} RunIsPatient(policy: Policy, y: System, events: seq<Event>, ticket: Ticket)
    requires QueueInv(y.state) && Waits(y.state, ticket) && Waits(Run(policy, y, events).state, ticket)
    ensures Patience(Run(policy, y, events).state, ticket) + |Grants(policy, y, events)| <= Patience(y.state, ticket)
    decreases |events|
  {
    if events != [] {
      var z := Step(policy, y, events[0]);
      StepMovesQueue(policy, y, events[0]);
      assert ticket <= y.state.nextTicket by {
        var p := Position(y.state, ticket);
      }
      if !Waits(z.state, ticket) {
        OutStaysOut(policy, z, events[1..], ticket);
      }
      StepIsPatient(policy, y, events[0], ticket);
      RunIsPatient(policy, z, events[1..], ticket);
    }
  }

  /**
   The starvation bound: in every run, from the moment a build stands at position p
   and for as long as it has neither been granted nor left the queue, the slot has
   gone to others at most 2p times, and once more if the head had the slot last.
   */
  lemma AtMostTwicePerBuildAhead(policy: Policy, before: seq<Event>, events: seq<Event>, ticket: Ticket)
    requires var y := Run(policy, START, before);
      Waits(y.state, ticket) && Waits(Run(policy, y, events).state, ticket)
    ensures var y := Run(policy, START, before);
      var p := Position(y.state, ticket);
      |Grants(policy, y, events)| <= 2 * p + (if HeadHadTheSlot(y.state) then 1 else 0) <= 2 * p + 1
  {
    RunKeepsPermits(policy, START, before);
    RunIsPatient(policy, Run(policy, START, before), events, ticket);
  }

  /** With its patience used up, a waiting build is the one that the next grant goes to. */
  lemma PatienceSpentIsNext(policy: Policy, before: seq<Event>, events: seq<Event>, ticket: Ticket, e: Event)
    requires var y := Run(policy, START, before);
      Waits(y.state, ticket) && Waits(Run(policy, y, events).state, ticket)
      && |Grants(policy, y, events)| == Patience(y.state, ticket)
    ensures var z := Run(policy, Run(policy, START, before), events);
      NextWaiterIndex(z.state.waiters, z.state.lastGrantedRoot) == Some(0) && z.state.waiters[0].ticket == ticket
      && (GrantedBy(z, e) != [] ==> GrantedBy(z, e) == [ticket])
  {
    RunKeepsPermits(policy, START, before);
    var y := Run(policy, START, before);
    RunIsPatient(policy, y, events, ticket);
  }

  /** While the slot is free, the selected build gets an answer the next time it looks. */
  lemma SelectedGetsAnAnswer(s: State)
    requires s.active.None? && s.waiters != []
    ensures var n := NextWaiterIndex(s.waiters, s.lastGrantedRoot);
      n.Some?
      && var q := s.waiters[n.value];
         (Poll(s, q.ticket, q.token).1.Granted? <==> !s.shuttingDown && q.token !in s.cancelled)
         && !Poll(s, q.ticket, q.token).1.StillWaiting?
  {
    NextWaiterIsFair(s.waiters, s.lastGrantedRoot);
  }

  // ---------------------------------------------------------------- the bound is reached

  const HERE: Root := "A"
  const THERE: Root := "B"

  /** `n + 1` builds of one root, which also had the slot last; the slot is free and nothing is cancelled. */
  ghost predicate Line(y: System, n: nat) {
    PermitInv(y) && y.state.active.None? && !y.state.shuttingDown && y.state.cancelled == {}
    && y.state.lastGrantedRoot == Some(HERE) && |y.state.waiters| == n + 1
    && forall i :: 0 <= i <= n ==> y.state.waiters[i].root == HERE
  }

  /** A granted build that is dropped at once. */
  function Turn(y: System, q: QueuedBuild): seq<Event> {
    [PollWaiter(q.ticket, q.token), DropHandle(y.nextId)]
  }

  lemma RunOne(policy: Policy, y: System, e: Event)
    ensures Run(policy, y, [e]) == Step(policy, y, e) && Grants(policy, y, [e]) == GrantedBy(y, e)
  {
    var z := Step(policy, y, e);
    assert Run(policy, z, []) == z && Grants(policy, z, []) == [];
    assert [e][1..] == [];
  }

  /** The selected build takes the slot. */
  lemma TakesTheSlot(policy: Policy, y: System, n: nat)
    requires PermitInv(y) && y.state.active.None? && !y.state.shuttingDown && y.state.cancelled == {}
    requires NextWaiterIndex(y.state.waiters, y.state.lastGrantedRoot) == Some(n)
    ensures var q := y.state.waiters[n];
      var e := PollWaiter(q.ticket, q.token);
      var x := Step(policy, y, e);
      GrantedBy(y, e) == [q.ticket] && PermitInv(x) && x.state == Grant(y.state, n).0
      && x.handles.Keys == {y.nextId} && Droppable(x, y.nextId)
  {
    var q := y.state.waiters[n];
    var e := PollWaiter(q.ticket, q.token);
    StepKeepsHandles(policy, y, e);
    StepMovesQueue(policy, y, e);
    assert y.handles == map[] && y.pending == map[];
  }

  lemma LeavesTheSlot(policy: Policy, x: System, id: nat)
    requires PermitInv(x) && x.handles.Keys == {id} && Droppable(x, id)
    ensures var z := Step(policy, x, DropHandle(id));
      PermitInv(z) && z.state == x.state.(active := None) && GrantedBy(x, DropHandle(id)) == []
  {
    StepKeepsHandles(policy, x, DropHandle(id));
    StepMovesQueue(policy, x, DropHandle(id));
    DropKeepsHandles(x, id);
  }

  lemma TurnEffect(policy: Policy, y: System, n: nat)
    requires PermitInv(y) && y.state.active.None? && !y.state.shuttingDown && y.state.cancelled == {}
    requires NextWaiterIndex(y.state.waiters, y.state.lastGrantedRoot) == Some(n)
    ensures var q := y.state.waiters[n];
      var z := Run(policy, y, Turn(y, q));
      PermitInv(z) && z.state == Grant(y.state, n).0.(active := None)
      && Grants(policy, y, Turn(y, q)) == [q.ticket]
  {
    var q := y.state.waiters[n];
    var e0, e1 := PollWaiter(q.ticket, q.token), DropHandle(y.nextId);
    TakesTheSlot(policy, y, n);
    var x := Step(policy, y, e0);
    LeavesTheSlot(policy, x, y.nextId);
    assert Turn(y, q) == [e0] + [e1];
    RunInTwo(policy, y, [e0], [e1]);
    RunOne(policy, y, e0);
    RunOne(policy, x, e1);
  }

  // A build of another root arrives behind the line, and passes it.
  lemma NewcomerPasses(policy: Policy, y: System, n: nat) returns (events: seq<Event>)
    requires Line(y, n)
    ensures var z := Run(policy, y, events);
      PermitInv(z) && z.state.active.None? && !z.state.shuttingDown && z.state.cancelled == {}
      && z.state.waiters == y.state.waiters && z.state.lastGrantedRoot == Some(THERE)
      && |Grants(policy, y, events)| == 1
  {
    var e := EnqueueBuild(THERE, FullIndex, 0);
    var x := Step(policy, y, e);
    RunOne(policy, y, e);
    StepKeepsHandles(policy, y, e);
    StepMovesQueue(policy, y, e);
    NextWaiterIsFair(x.state.waiters, x.state.lastGrantedRoot);
    assert x.state.waiters[n + 1].root == THERE;
    assert forall i :: 0 <= i <= n ==> x.state.waiters[i] == y.state.waiters[i];
    assert NextWaiterIndex(x.state.waiters, x.state.lastGrantedRoot) == Some(n + 1);
    TurnEffect(policy, x, n + 1);
    var turn := Turn(x, x.state.waiters[n + 1]);
    events := [e] + turn;
    RunInTwo(policy, y, [e], turn);
    assert Without(x.state.waiters, n + 1) == y.state.waiters;
  }

  // Then the head of the line has its turn.
  lemma HeadHasItsTurn(policy: Policy, y: System, n: nat) returns (events: seq<Event>)
    requires PermitInv(y) && y.state.active.None? && !y.state.shuttingDown && y.state.cancelled == {}
    requires |y.state.waiters| == n + 2 && y.state.lastGrantedRoot == Some(THERE)
    requires forall i :: 0 <= i <= n + 1 ==> y.state.waiters[i].root == HERE
    ensures Line(Run(policy, y, events), n)
    ensures Run(policy, y, events).state.waiters == y.state.waiters[1..]
    ensures |Grants(policy, y, events)| == 1
  {
    assert NextWaiterIndex(y.state.waiters, y.state.lastGrantedRoot) == Some(0);
    TurnEffect(policy, y, 0);
    events := Turn(y, y.state.waiters[0]);
    assert Without(y.state.waiters, 0) == y.state.waiters[1..];
  }

  /** Each round lets one newcomer and one build of the line pass. */
  lemma {:induction false} BoundIsReached(policy: Policy, y: System, n: nat) returns (events: seq<Event>)
    requires Line(y, n)
    ensures var ticket := y.state.waiters[n].ticket;
      Waits(y.state, ticket) && Position(y.state, ticket) == n && Waits(Run(policy, y, events).state, ticket)
      && |Grants(policy, y, events)| == 2 * n + 1
    decreases n
  {
    var ticket := y.state.waiters[n].ticket;
    PositionIs(y.state, ticket, n);
    var first := NewcomerPasses(policy, y, n);
    var x := Run(policy, y, first);
    events := first;
    if n == 0 {
      PositionIs(x.state, ticket, 0);
    } else {
      var second := HeadHasItsTurn(policy, x, n - 1);
      var z := Run(policy, x, second);
      assert z.state.waiters[n - 1] == y.state.waiters[n];
      var rest := BoundIsReached(policy, z, n - 1);
      RunInTwo(policy, y, first, second);
      RunInTwo(policy, y, first + second, rest);
      events := first + second + rest;
    }
  }

  lemma {:induction false} JoinTheLine(policy: Policy, y: System, n: nat) returns (events: seq<Event>)
    requires PermitInv(y) && y.state.active.None? && !y.state.shuttingDown && y.state.cancelled == {}
    requires y.state.lastGrantedRoot == Some(HERE)
    requires forall i :: 0 <= i < |y.state.waiters| ==> y.state.waiters[i].root == HERE
    requires |y.state.waiters| <= n + 1
    ensures Line(Run(policy, y, events), n)
    decreases n + 1 - |y.state.waiters|
  {
    if |y.state.waiters| == n + 1 {
      events := [];
    } else {
      var e := EnqueueBuild(HERE, FullIndex, 0);
      StepKeepsHandles(policy, y, e);
      StepMovesQueue(policy, y, e);
      var rest := JoinTheLine(policy, Step(policy, y, e), n);
      RunOne(policy, y, e);
      RunInTwo(policy, y, [e], rest);
      events := [e] + rest;
    }
  }

  /** Such a line is reached from the start. */
  lemma LineIsReachable(policy: Policy, n: nat) returns (events: seq<Event>)
    ensures Line(Run(policy, START, events), n)
  {
    var e := EnqueueBuild(HERE, FullIndex, 0);
    RunOne(policy, START, e);
    RunKeepsPermits(policy, START, [e]);
    var x := Step(policy, START, e);
    assert x.state.waiters == [QueuedBuild(1, HERE, FullIndex, 0)];
    TurnEffect(policy, x, 0);
    var turn := Turn(x, x.state.waiters[0]);
    RunInTwo(policy, START, [e], turn);
    var y := Run(policy, x, turn);
    assert y.state.waiters == [];
    var rest := JoinTheLine(policy, y, n);
    RunInTwo(policy, START, [e] + turn, rest);
    events := [e] + turn + rest;
  }

  /** After `before` some build has n others ahead of it; it still waits after 2n + 1 more grants. */
  ghost predicate SeesTheBound(policy: Policy, before: seq<Event>, events: seq<Event>, n: nat) {
    var y := Run(policy, START, before);
    n < |y.state.waiters|
    && var ticket := y.state.waiters[n].ticket;
       Waits(y.state, ticket) && Position(y.state, ticket) == n && Waits(Run(policy, y, events).state, ticket)
       && |Grants(policy, y, events)| == 2 * n + 1
  }

  /** The starvation bound cannot be improved, for any number of builds ahead. */
  lemma BoundIsTight(policy: Policy, n: nat)
    ensures exists before: seq<Event>, events: seq<Event> :: SeesTheBound(policy, before, events, n)
  {
    var before := LineIsReachable(policy, n);
    var events := BoundIsReached(policy, Run(policy, START, before), n);
    assert SeesTheBound(policy, before, events, n);
  }
}
