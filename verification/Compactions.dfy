/**
 The compaction protocol of one root over every run in which that root is never
 removed under a running worker (build_coordinator.rs 636-724 and its driver,
 server/indexing/cache.rs 1389-1483): one worker, newest epoch wins, outdated work is
 cancelled. The condition on removals is exact.
 */
module Compactions {
  import opened Basics
  import opened Admission
  import opened Ledger
  import opened CoordinatorRuns

  // ---------------------------------------------------------------- the invariant

  /** The worker's view and the table's view of one root agree. */
  ghost predicate Serves(w: Worker, c: CompactionState) {
    c.workerRunning
    && c.current == (if w.job.Some? then Some(w.job.value.0) else None)
    && c.token == (if w.job.Some? then Some(w.job.value.1) else None)
    && c.latest in w.asked && (forall x :: x in w.asked ==> x <= c.latest)
  }

  /** An epoch in flight is not newer than the latest, and cancelled once it is older. */
  ghost predicate UpToDate(c: CompactionState, cancelled: set<Token>) {
    (c.current.Some? <==> c.token.Some?)
    && (c.current.Some? ==> c.current.value <= c.latest)
    && (c.current.Some? && c.current.value < c.latest ==> c.token.value in cancelled)
  }

  predicate WorksFor(y: System, w: nat, r: Root) { w in y.workers && y.workers[w].root == r }

  ghost predicate HasWorker(y: System, r: Root) { exists w: nat :: WorksFor(y, w, r) }

  ghost predicate OneWorker(y: System, r: Root) {
    (forall w: nat :: WorksFor(y, w, r) ==> w < y.nextId)
    && (forall v: nat, w: nat :: WorksFor(y, v, r) && WorksFor(y, w, r) ==> v == w)
  }

  ghost predicate WorkersInv(y: System, r: Root) {
    OneWorker(y, r)
    && forall w: nat :: WorksFor(y, w, r) ==> r in y.state.compactions && Serves(y.workers[w], y.state.compactions[r])
  }

  /** Outside of a shutdown, a root without a worker has nothing recorded for it. */
  ghost predicate TableInv(y: System, r: Root) {
    r in y.state.compactions ==>
      UpToDate(y.state.compactions[r], y.state.cancelled)
      && (!y.state.shuttingDown && !HasWorker(y, r) ==> y.state.compactions[r] == NO_COMPACTION)
  }

  /** The protocol of root `r` is in order. */
  ghost predicate CompactionInv(y: System, r: Root) { WorkersInv(y, r) && TableInv(y, r) }

  /** The root was removed during a shutdown: its worker, if any, is on its way out. */
  ghost predicate Dissolved(y: System, r: Root) {
    y.state.shuttingDown && r !in y.state.compactions && OneWorker(y, r)
  }

  /** Nothing of the protocol changes, except that more tokens may be cancelled. */
  ghost predicate Elsewhere(y: System, z: System) {
    z.state.compactions == y.state.compactions && z.workers == y.workers && y.nextId <= z.nextId
    && y.state.cancelled <= z.state.cancelled && (y.state.shuttingDown ==> z.state.shuttingDown)
  }

  lemma ClaimIsElsewhere(s: State, policy: Policy, permit: Permit, reserved: nat, retained: nat, sampled: nat, now: nat,
                         late: bool)
    ensures var t := Reserve(s, policy, permit, reserved, retained, sampled, now, late).0;
      t.compactions == s.compactions && t.cancelled == s.cancelled && t.shuttingDown == s.shuttingDown
  {
  }

  lemma ReserveIsElsewhere(policy: Policy, y: System, e: Event)
    requires e.ReserveBytes? || e.RetainBytes? || e.OpenScope?
    ensures Elsewhere(y, Step(policy, y, e))
  {
    match e
    case ReserveBytes(id, reserved, retained, sampled, now, late) =>
      if IsShare(y, id) {
        ClaimIsElsewhere(y.state, policy, y.handles[id].permit, reserved, retained, sampled, now, late);
      }
    case RetainBytes(id, bytes, sampled, now, late) =>
      if IsLease(y, id) {
        var h := y.handles[id];
        var claimed := SatAdd(h.parentRetained, bytes);
        ClaimIsElsewhere(y.state, policy, h.permit, h.parentReserved, claimed, sampled, now, late);
      }
    case OpenScope(read, scope, bytes, sampled, now, late) =>
      if read in y.pending {
        var d := y.pending[read];
        ClaimIsElsewhere(y.state, policy, d.permit, Estimate(scope, d.reserved, bytes), d.retained, sampled, now, late);
      }
  }

  lemma PollIsElsewhere(y: System, ticket: Ticket, token: Token)
    ensures Elsewhere(y, AfterPoll(y, ticket, token))
  {
  }

  lemma DropIsElsewhere(y: System, id: nat)
    ensures Elsewhere(y, Dropped(y, id))
  {
  }

  lemma OthersAreElsewhere(policy: Policy, y: System, e: Event)
    requires !OfCompaction(e) && !e.ForgetRoot?
    ensures Elsewhere(y, Step(policy, y, e))
  {
    if e.PollWaiter? {
      PollIsElsewhere(y, e.ticket, e.token);
    } else if e.DropHandle? {
      DropIsElsewhere(y, e.id);
    } else if e.ReserveBytes? || e.RetainBytes? || e.OpenScope? {
      ReserveIsElsewhere(policy, y, e);
    }
  }

  // ---------------------------------------------------------------- what leaves the root alone

  /** Nothing of root `r` changes. */
  ghost predicate Apart(y: System, z: System, r: Root) {
    (r in z.state.compactions <==> r in y.state.compactions)
    && (r in y.state.compactions ==> z.state.compactions[r] == y.state.compactions[r])
    && (forall w: nat :: WorksFor(z, w, r) <==> WorksFor(y, w, r))
    && (forall w: nat :: WorksFor(y, w, r) ==> z.workers[w] == y.workers[w])
    && y.nextId <= z.nextId && y.state.cancelled <= z.state.cancelled
    && (y.state.shuttingDown ==> z.state.shuttingDown)
  }

  lemma ApartKeeps(y: System, z: System, r: Root)
    requires Apart(y, z, r)
    ensures CompactionInv(y, r) ==> CompactionInv(z, r)
    ensures Dissolved(y, r) ==> Dissolved(z, r)
  {
    assert HasWorker(y, r) ==> HasWorker(z, r) by {
      if w :| WorksFor(y, w, r) { assert WorksFor(z, w, r); }
    }
  }

  lemma ElsewhereIsApart(y: System, z: System, r: Root)
    requires Elsewhere(y, z)
    ensures Apart(y, z, r)
  {
    assert forall w: nat :: WorksFor(z, w, r) <==> WorksFor(y, w, r);
  }

  lemma StartedIsApart(y: System, root: Root, epoch: nat, r: Root)
    requires OneWorker(y, r) && root != r && RequestCompaction(y.state, root, epoch).1.StartWorker?
    ensures Apart(y, Asked(y, root, epoch), r)
  {
    var z := Asked(y, root, epoch);
    assert !WorksFor(y, y.nextId, r);
    assert forall w: nat :: WorksFor(z, w, r) <==> WorksFor(y, w, r);
  }

  lemma HeardIsApart(workers: map<nat, Worker>, root: Root, epoch: nat, r: Root)
    requires root != r
    ensures Heard(workers, root, epoch).Keys == workers.Keys
    ensures forall w :: w in workers ==> Heard(workers, root, epoch)[w].root == workers[w].root
    ensures forall w :: w in workers && workers[w].root == r ==> Heard(workers, root, epoch)[w] == workers[w]
  {
  }

  lemma AskedIsApart(y: System, root: Root, epoch: nat, r: Root)
    requires OneWorker(y, r) && root != r
    ensures Apart(y, Asked(y, root, epoch), r)
  {
    if RequestCompaction(y.state, root, epoch).1.StartWorker? {
      StartedIsApart(y, root, epoch, r);
    } else {
      HeardIsApart(y.workers, root, epoch, r);
    }
  }

  lemma BegunIsApart(y: System, w: nat, r: Root)
    requires !WorksFor(y, w, r)
    ensures Apart(y, Begun(y, w), r)
  {
    var z := Begun(y, w);
    assert forall v: nat :: WorksFor(z, v, r) <==> WorksFor(y, v, r);
  }

  lemma EndedIsApart(y: System, w: nat, retry: bool, r: Root)
    requires !WorksFor(y, w, r)
    ensures Apart(y, Ended(y, w, retry), r)
  {
    var z := Ended(y, w, retry);
    assert forall v: nat :: WorksFor(z, v, r) <==> WorksFor(y, v, r);
  }

  lemma ForgottenIsApart(y: System, root: Root, r: Root)
    requires root != r
    ensures Apart(y, WithState(y, RemoveRoot(y.state, root)), r)
  {
    var z := WithState(y, RemoveRoot(y.state, root));
    assert forall v: nat :: WorksFor(z, v, r) <==> WorksFor(y, v, r);
  }

  /** The event is about the compaction of root `r`. */
  predicate Concerns(y: System, e: Event, r: Root) {
    (e.AskCompaction? && e.root == r) || (e.BeginCompaction? && WorksFor(y, e.worker, r))
    || (e.EndCompaction? && WorksFor(y, e.worker, r)) || e == ForgetRoot(r)
  }

  lemma OthersAreApart(policy: Policy, y: System, e: Event, r: Root)
    requires OneWorker(y, r) && !Concerns(y, e, r)
    ensures Apart(y, Step(policy, y, e), r)
  {
    match e
    case AskCompaction(root, epoch) => AskedIsApart(y, root, epoch, r);
    case BeginCompaction(w) => BegunIsApart(y, w, r);
    case EndCompaction(w, retry) => EndedIsApart(y, w, retry, r);
    case ForgetRoot(root) => ForgottenIsApart(y, root, r);
    case _ =>
      OthersAreElsewhere(policy, y, e);
      ElsewhereIsApart(y, Step(policy, y, e), r);
  }

  // ---------------------------------------------------------------- a request

  lemma NewWorkerKeeps(y: System, r: Root, epoch: nat)
    requires CompactionInv(y, r) && RequestCompaction(y.state, r, epoch).1.StartWorker?
    ensures CompactionInv(Asked(y, r, epoch), r)
    ensures WorksFor(Asked(y, r, epoch), y.nextId, r) && Asked(y, r, epoch).workers[y.nextId].asked == {epoch}
  {
    var z := Asked(y, r, epoch);
    assert forall w: nat :: WorksFor(y, w, r) ==> Serves(y.workers[w], y.state.compactions[r]);
    assert !HasWorker(y, r);
    assert CompactionOf(y.state, r) == NO_COMPACTION;
    assert forall w: nat :: WorksFor(z, w, r) ==> w == y.nextId || WorksFor(y, w, r);
  }

  lemma HeardKeeps(y: System, r: Root, epoch: nat)
    requires CompactionInv(y, r) && !y.state.shuttingDown && !RequestCompaction(y.state, r, epoch).1.StartWorker?
    ensures CompactionInv(Asked(y, r, epoch), r)
    ensures forall w: nat :: WorksFor(y, w, r) ==>
      WorksFor(Asked(y, r, epoch), w, r) && epoch in Asked(y, r, epoch).workers[w].asked
  {
    var z := Asked(y, r, epoch);
    assert forall w: nat :: WorksFor(z, w, r) <==> WorksFor(y, w, r);
    forall w | WorksFor(y, w, r) ensures Serves(z.workers[w], z.state.compactions[r]) {
      assert Serves(y.workers[w], y.state.compactions[r]);
    }
    if w :| WorksFor(y, w, r) {
      assert WorksFor(z, w, r);
    }
  }

  // ---------------------------------------------------------------- the two events of a worker

  /** A worker and its root's entry change together. */
  lemma WorkerMovesOn(y: System, z: System, w: nat, r: Root)
    requires CompactionInv(y, r) && WorksFor(y, w, r) && WorksFor(z, w, r)
    requires z.nextId == y.nextId && z.workers == y.workers[w := z.workers[w]]
    requires r in z.state.compactions && z.state.cancelled == y.state.cancelled
    requires Serves(z.workers[w], z.state.compactions[r]) && UpToDate(z.state.compactions[r], z.state.cancelled)
    ensures CompactionInv(z, r)
  {
    assert forall v: nat :: WorksFor(z, v, r) <==> WorksFor(y, v, r);
  }

  lemma BeginKeeps(y: System, w: nat, r: Root)
    requires CompactionInv(y, r) && WorksFor(y, w, r)
    ensures CompactionInv(Begun(y, w), r)
    ensures y.workers[w].job.None? ==>
      w in Begun(y, w).workers && Begun(y, w).workers[w].job.Some?
      && Begun(y, w).workers[w].job.value.0 == y.state.compactions[r].latest
  {
    assert Serves(y.workers[w], y.state.compactions[r]);
    if y.workers[w].job.None? {
      WorkerMovesOn(y, Begun(y, w), w, r);
    }
  }

  lemma LastWorkerLeaves(y: System, z: System, w: nat, r: Root)
    requires OneWorker(y, r) && WorksFor(y, w, r) && z.workers == y.workers - {w} && z.nextId == y.nextId
    ensures !HasWorker(z, r) && OneWorker(z, r)
  {
    assert forall v: nat :: WorksFor(z, v, r) ==> WorksFor(y, v, r) && v != w;
  }

  lemma RetryKeeps(y: System, w: nat, r: Root)
    requires CompactionInv(y, r) && WorksFor(y, w, r)
    ensures CompactionInv(Ended(y, w, true), r)
  {
    assert Serves(y.workers[w], y.state.compactions[r]);
    if y.workers[w].job.Some? {
      var z := Ended(y, w, true);
      if y.state.shuttingDown {
        LastWorkerLeaves(y, z, w, r);
      } else {
        WorkerMovesOn(y, z, w, r);
      }
    }
  }

  lemma FinishKeeps(y: System, w: nat, r: Root)
    requires CompactionInv(y, r) && WorksFor(y, w, r)
    ensures CompactionInv(Ended(y, w, false), r)
  {
    assert Serves(y.workers[w], y.state.compactions[r]);
    if y.workers[w].job.Some? {
      var z := Ended(y, w, false);
      if r in z.state.compactions {
        WorkerMovesOn(y, z, w, r);
      } else {
        LastWorkerLeaves(y, z, w, r);
      }
    }
  }

  // ---------------------------------------------------------------- removal of the root

  /** Nobody works for the root, or nobody will start to. */
  ghost predicate RemovalIsSafe(y: System, r: Root) { !HasWorker(y, r) || y.state.shuttingDown }

  ghost predicate InOrder(y: System, r: Root) { CompactionInv(y, r) || Dissolved(y, r) }

  lemma SafeRemovalKeeps(policy: Policy, y: System, r: Root)
    requires InOrder(y, r) && RemovalIsSafe(y, r)
    ensures InOrder(Step(policy, y, ForgetRoot(r)), r)
  {
    var z := Step(policy, y, ForgetRoot(r));
    assert forall w: nat :: WorksFor(z, w, r) <==> WorksFor(y, w, r);
  }

  /**
   A root removed under a running worker: the next request for any epoch starts a second
   worker beside the first.
   */
  lemma RemovalBreaksIt(policy: Policy, y: System, w: nat, r: Root, epoch: nat)
    requires OneWorker(y, r) && WorksFor(y, w, r) && !y.state.shuttingDown && epoch > 0
    ensures var z := Step(policy, Step(policy, y, ForgetRoot(r)), AskCompaction(r, epoch));
      WorksFor(z, w, r) && WorksFor(z, y.nextId, r) && w != y.nextId && !OneWorker(z, r)
  {
    var z := Step(policy, Step(policy, y, ForgetRoot(r)), AskCompaction(r, epoch));
    assert WorksFor(z, w, r) && WorksFor(z, y.nextId, r);
  }

  lemma DissolvedKeeps(policy: Policy, y: System, e: Event, r: Root)
    requires Dissolved(y, r) && Concerns(y, e, r)
    ensures Dissolved(Step(policy, y, e), r)
  {
    match e
    case BeginCompaction(w) =>
      if y.workers[w].job.None? { LastWorkerLeaves(y, Begun(y, w), w, r); }
    case EndCompaction(w, retry) =>
      if y.workers[w].job.Some? { LastWorkerLeaves(y, Ended(y, w, retry), w, r); }
    case ForgetRoot(root) =>
      assert forall w: nat :: WorksFor(Step(policy, y, e), w, r) <==> WorksFor(y, w, r);
    case _ =>
  }

  lemma OwnEventKeeps(policy: Policy, y: System, e: Event, r: Root)
    requires CompactionInv(y, r) && Concerns(y, e, r) && !e.ForgetRoot?
    ensures CompactionInv(Step(policy, y, e), r)
  {
    match e
    case AskCompaction(root, epoch) =>
      if RequestCompaction(y.state, r, epoch).1.StartWorker? {
        NewWorkerKeeps(y, r, epoch);
      } else if !y.state.shuttingDown {
        HeardKeeps(y, r, epoch);
      }
    case BeginCompaction(w) => BeginKeeps(y, w, r);
    case EndCompaction(w, retry) =>
      RetryKeeps(y, w, r);
      FinishKeeps(y, w, r);
    case _ =>
  }

  lemma StepKeepsCompactions(policy: Policy, y: System, e: Event, r: Root)
    requires InOrder(y, r) && (e == ForgetRoot(r) ==> RemovalIsSafe(y, r))
    ensures InOrder(Step(policy, y, e), r)
  {
    if !Concerns(y, e, r) {
      OthersAreApart(policy, y, e, r);
      ApartKeeps(y, Step(policy, y, e), r);
    } else if e == ForgetRoot(r) {
      SafeRemovalKeeps(policy, y, r);
    } else if CompactionInv(y, r) {
      OwnEventKeeps(policy, y, e, r);
    } else {
      DissolvedKeeps(policy, y, e, r);
    }
  }

  // ---------------------------------------------------------------- the promises

  /** Whenever the run removes root `r`, no worker of that root runs, or the coordinator is shutting down. */
  ghost predicate RemovalsAreSafe(policy: Policy, y: System, events: seq<Event>, r: Root)
    decreases |events|
  {
    events == []
    || ((events[0] == ForgetRoot(r) ==> RemovalIsSafe(y, r))
        && RemovalsAreSafe(policy, Step(policy, y, events[0]), events[1..], r))
  }

  lemma {:induction false} RunKeepsCompactions(policy: Policy, y: System, events: seq<Event>, r: Root)
    requires InOrder(y, r) && RemovalsAreSafe(policy, y, events, r)
    ensures InOrder(Run(policy, y, events), r)
    decreases |events|
  {
    if events != [] {
      StepKeepsCompactions(policy, y, events[0], r);
      RunKeepsCompactions(policy, Step(policy, y, events[0]), events[1..], r);
    }
  }

  /** In every such run, a root has at most one worker. */
  lemma OneWorkerPerRoot(policy: Policy, events: seq<Event>, v: nat, w: nat)
    requires var y := Run(policy, START, events);
      v in y.workers && w in y.workers && y.workers[v].root == y.workers[w].root
      && RemovalsAreSafe(policy, START, events, y.workers[v].root)
    ensures v == w
  {
    var y := Run(policy, START, events);
    RunKeepsCompactions(policy, START, events, y.workers[v].root);
    assert WorksFor(y, v, y.workers[v].root) && WorksFor(y, w, y.workers[v].root);
  }

  /** In every such run, an epoch in flight below the latest has a cancelled token. */
  lemma OutdatedIsCancelled(policy: Policy, events: seq<Event>, root: Root)
    requires RemovalsAreSafe(policy, START, events, root)
    ensures var s := Run(policy, START, events).state;
      root in s.compactions ==>
        var c := s.compactions[root];
        (c.current.Some? ==> c.token.Some? && c.current.value <= c.latest)
        && (c.current.Some? && c.current.value < c.latest ==> c.token.value in s.cancelled)
  {
    RunKeepsCompactions(policy, START, events, root);
  }

  /**
   In every such run: a worker that looks for an epoch always gets one, the highest
   requested since it started; finishing tells it to stop exactly when the epoch it
   finished is that highest one; a retry tells it to stop only during shutdown. So no
   request is lost while its worker runs. The one exception is a root removed during a
   shutdown: its worker stops at the next question.
   */
  lemma WorkerStopsAtTheHighest(policy: Policy, events: seq<Event>, w: nat)
    requires var y := Run(policy, START, events);
      w in y.workers && RemovalsAreSafe(policy, START, events, y.workers[w].root)
    ensures var y := Run(policy, START, events);
      var worker := y.workers[w];
      if worker.root !in y.state.compactions then
        y.state.shuttingDown
        && (worker.job.None? ==> w !in Begun(y, w).workers)
        && (worker.job.Some? ==> w !in Ended(y, w, true).workers && w !in Ended(y, w, false).workers)
      else
        match worker.job {
          case None =>
            w in Begun(y, w).workers && Begun(y, w).workers[w].job.Some?
            && var epoch := Begun(y, w).workers[w].job.value.0;
               epoch in worker.asked && forall x :: x in worker.asked ==> x <= epoch
          case Some((epoch, token)) =>
            (w !in Ended(y, w, false).workers <==> forall x :: x in worker.asked ==> x <= epoch)
            && (w !in Ended(y, w, true).workers <==> y.state.shuttingDown)
        }
  {
    var y := Run(policy, START, events);
    var r := y.workers[w].root;
    RunKeepsCompactions(policy, START, events, r);
    assert WorksFor(y, w, r);
    if r in y.state.compactions {
      BeginKeeps(y, w, r);
    }
  }

  /** An accepted request has a worker that knows of it. */
  lemma AcceptedIsHeard(policy: Policy, events: seq<Event>, root: Root, epoch: nat)
    requires RemovalsAreSafe(policy, START, events, root)
    ensures var y := Run(policy, START, events);
      var z := Asked(y, root, epoch);
      RequestCompaction(y.state, root, epoch).1 != IgnoredStale ==>
        exists w: nat :: WorksFor(z, w, root) && epoch in z.workers[w].asked
  {
    RunKeepsCompactions(policy, START, events, root);
    var y := Run(policy, START, events);
    var r := RequestCompaction(y.state, root, epoch).1;
    if r == StartWorker {
      NewWorkerKeeps(y, root, epoch);
    } else if r == UpdatedPending {
      HeardKeeps(y, root, epoch);
      var w :| WorksFor(y, w, root);
    }
  }

  /**
   The condition on removals is exact, at every state such a run can reach: the root keeps
   at most one worker, whatever follows the removal, if and only if no worker of that root
   runs or the coordinator is shutting down.
   */
  lemma RemovalIsSafeIff(policy: Policy, before: seq<Event>, r: Root)
    requires RemovalsAreSafe(policy, START, before, r)
    ensures var y := Run(policy, START, before);
      var z := Step(policy, y, ForgetRoot(r));
      RemovalIsSafe(y, r) <==>
        forall events: seq<Event> :: RemovalsAreSafe(policy, z, events, r) ==> OneWorker(Run(policy, z, events), r)
  {
    RunKeepsCompactions(policy, START, before, r);
    var y := Run(policy, START, before);
    var z := Step(policy, y, ForgetRoot(r));
    if RemovalIsSafe(y, r) {
      SafeRemovalKeeps(policy, y, r);
      forall events: seq<Event> | RemovalsAreSafe(policy, z, events, r) ensures OneWorker(Run(policy, z, events), r) {
        RunKeepsCompactions(policy, z, events, r);
      }
    } else {
      var w :| WorksFor(y, w, r);
      RemovalBreaksIt(policy, y, w, r, 1);
      OneRequest(policy, z, r);
    }
  }

  lemma OneRequest(policy: Policy, z: System, r: Root)
    ensures RemovalsAreSafe(policy, z, [AskCompaction(r, 1)], r)
    ensures Run(policy, z, [AskCompaction(r, 1)]) == Step(policy, z, AskCompaction(r, 1))
  {
    var events := [AskCompaction(r, 1)];
    assert events[1..] == [];
    assert RemovalsAreSafe(policy, Step(policy, z, events[0]), [], r);
    assert Run(policy, Step(policy, z, events[0]), []) == Step(policy, z, events[0]);
  }
}
