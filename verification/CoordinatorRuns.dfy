/**
 Whole runs of the build coordinator: its critical sections interleaved in any
 order, together with what its callers hold between two of them (permit shares,
 reservation leases, ledger values read but not yet used, compaction workers).
 An event that its caller cannot perform leaves everything as it is, so every
 sequence of events is a run.
 */
module CoordinatorRuns {
  import opened Basics
  import opened Admission
  import opened Ledger

  datatype Handle = Share(permit: Permit) | Lease(permit: Permit, parentReserved: nat, parentRetained: nat)

  /** The first half of opening a scope: the ledger as the holder of a share read it. */
  datatype LedgerRead = LedgerRead(holder: nat, permit: Permit, reserved: nat, retained: nat)

  /** A compaction worker between two epochs or inside one; `asked` is every epoch requested since it started. */
  datatype Worker = Worker(root: Root, job: Option<(nat, Token)>, asked: set<nat>)

  datatype System = System(
    state: State,
    shares: map<Ticket, nat>,
    handles: map<nat, Handle>,
    pending: map<nat, LedgerRead>,
    workers: map<nat, Worker>,
    nextId: nat)

  const START := System(INITIAL, map[], map[], map[], map[], 0)

  datatype Event =
    | ClearTheWay(kind: BuildKind)
    | EnqueueBuild(root: Root, kind: BuildKind, token: Token)
    | PollWaiter(ticket: Ticket, token: Token)
    | TimeOut(ticket: Ticket, now: nat)
    | CancelToken(token: Token)
    | NewToken
    | ShareHandle(id: nat, stage: BuildKind)
    | DropHandle(id: nat)
    | ReserveBytes(id: nat, reserved: nat, retained: nat, sampled: nat, now: nat, late: bool)
    | ReadLedger(id: nat)
    | OpenScope(read: nat, scope: Scope, bytes: nat, sampled: nat, now: nat, late: bool)
    | RetainBytes(id: nat, bytes: nat, sampled: nat, now: nat, late: bool)
    | CloseScope(id: nat)
    | ShutDown
    | ForgetRoot(root: Root)
    | AskCompaction(root: Root, epoch: nat)
    | BeginCompaction(worker: nat)
    | EndCompaction(worker: nat, retry: bool)

  predicate OfCompaction(e: Event) { e.AskCompaction? || e.BeginCompaction? || e.EndCompaction? }

  // ---------------------------------------------------------------- permits and leases

  predicate IsShare(y: System, id: nat) { id in y.handles && y.handles[id].Share? }

  predicate IsLease(y: System, id: nat) { id in y.handles && y.handles[id].Lease? }

  function WithState(y: System, s: State): System { y.(state := s) }

  function Hand(y: System, h: Handle): System {
    var t := h.permit.ticket;
    y.(handles := y.handles[y.nextId := h],
       shares := y.shares[t := if t in y.shares then y.shares[t] + 1 else 1],
       nextId := y.nextId + 1)
  }

  function AfterPoll(y: System, ticket: Ticket, token: Token): System {
    var (s, r) := Poll(y.state, ticket, token);
    if r.Granted? then Hand(WithState(y, s), Share(r.permit)) else WithState(y, s)
  }

  function Shared(y: System, id: nat, stage: BuildKind): System {
    if IsShare(y, id) then Hand(y, Share(y.handles[id].permit.(stage := stage))) else y
  }

  /** A share cannot be dropped while its holder is opening a scope with it. */
  ghost predicate Droppable(y: System, id: nat) {
    IsShare(y, id) && forall r :: r in y.pending ==> y.pending[r].holder != id
  }

  /** The last share of a ticket takes the slot with it. */
  ghost function Dropped(y: System, id: nat): System {
    if !Droppable(y, id) then y
    else
      var t := y.handles[id].permit.ticket;
      var left := y.(handles := y.handles - {id});
      if t in y.shares && y.shares[t] > 1 then left.(shares := y.shares[t := y.shares[t] - 1])
      else left.(shares := y.shares - {t}, state := Release(y.state, t))
  }

  function ReservedBy(y: System, policy: Policy, id: nat, reserved: nat, retained: nat, sampled: nat, now: nat,
                      late: bool): System
  {
    if IsShare(y, id)
    then WithState(y, Reserve(y.state, policy, y.handles[id].permit, reserved, retained, sampled, now, late).0)
    else y
  }

  function LedgerReadBy(y: System, id: nat): System {
    if IsShare(y, id) && Holds(y.state, y.handles[id].permit.ticket) then
      var read := LedgerRead(id, y.handles[id].permit, y.state.active.value.reserved, y.state.active.value.retained);
      y.(pending := y.pending[y.nextId := read], nextId := y.nextId + 1)
    else y
  }

  function Opened(y: System, policy: Policy, read: nat, scope: Scope, bytes: nat, sampled: nat, now: nat, late: bool)
    : System
  {
    if read !in y.pending then y
    else
      var d := y.pending[read];
      var (s, r) := Open(y.state, policy, d.permit, scope, d.reserved, d.retained, bytes, sampled, now, late);
      var done := y.(state := s, pending := y.pending - {read});
      if r.Leased? then Hand(done, Lease(d.permit, d.reserved, d.retained)) else done
  }

  function RetainedBy(y: System, policy: Policy, id: nat, bytes: nat, sampled: nat, now: nat, late: bool): System {
    if IsLease(y, id) then
      var h := y.handles[id];
      var lease := ReservationLease(h.permit, h.parentReserved, h.parentRetained);
      WithState(y, Retain(y.state, policy, lease, bytes, sampled, now, late).0)
    else y
  }

  /** Dropping a lease restores the ledger first; its share of the permit goes after that. */
  function Closed(y: System, id: nat): System {
    if IsLease(y, id) then
      var h := y.handles[id];
      y.(state := Restore(y.state, h.permit.ticket, h.parentReserved, h.parentRetained),
         handles := y.handles[id := Share(h.permit)])
    else y
  }

  // ---------------------------------------------------------------- compaction workers

  function Heard(workers: map<nat, Worker>, root: Root, epoch: nat): map<nat, Worker> {
    map w | w in workers ::
      if workers[w].root == root then workers[w].(asked := workers[w].asked + {epoch}) else workers[w]
  }

  function Asked(y: System, root: Root, epoch: nat): System {
    var (s, r) := RequestCompaction(y.state, root, epoch);
    if y.state.shuttingDown then y
    else if r == StartWorker then
      y.(state := s, workers := y.workers[y.nextId := Worker(root, None, {epoch})], nextId := y.nextId + 1)
    else y.(state := s, workers := Heard(y.workers, root, epoch))
  }

  function Begun(y: System, w: nat): System {
    if w !in y.workers || y.workers[w].job.Some? then y
    else
      var (s, job) := BeginNextCompaction(y.state, y.workers[w].root);
      y.(state := s, workers := if job.Some? then y.workers[w := y.workers[w].(job := job)] else y.workers - {w})
  }

  function Ended(y: System, w: nat, retry: bool): System {
    if w !in y.workers || y.workers[w].job.None? then y
    else
      var root, epoch := y.workers[w].root, y.workers[w].job.value.0;
      var (s, again) :=
        if retry then RetryCompaction(y.state, root, epoch) else FinishCompaction(y.state, root, epoch);
      y.(state := s, workers := if again then y.workers[w := y.workers[w].(job := None)] else y.workers - {w})
  }

  // ---------------------------------------------------------------- steps and runs

  ghost function Step(policy: Policy, y: System, e: Event): System {
    match e
    case ClearTheWay(kind) => WithState(y, LookIn(y.state, kind))
    case EnqueueBuild(root, kind, token) => WithState(y, Enqueue(y.state, root, kind, token).0)
    case PollWaiter(ticket, token) => AfterPoll(y, ticket, token)
    case TimeOut(ticket, now) => WithState(y, Timeout(y.state, ticket, now))
    case CancelToken(token) => WithState(y, y.state.(cancelled := y.state.cancelled + {token}))
    case NewToken => WithState(y, y.state.(nextToken := y.state.nextToken + 1))
    case ShareHandle(id, stage) => Shared(y, id, stage)
    case DropHandle(id) => Dropped(y, id)
    case ReserveBytes(id, reserved, retained, sampled, now, late) =>
      ReservedBy(y, policy, id, reserved, retained, sampled, now, late)
    case ReadLedger(id) => LedgerReadBy(y, id)
    case OpenScope(read, scope, bytes, sampled, now, late) => Opened(y, policy, read, scope, bytes, sampled, now, late)
    case RetainBytes(id, bytes, sampled, now, late) => RetainedBy(y, policy, id, bytes, sampled, now, late)
    case CloseScope(id) => Closed(y, id)
    case ShutDown => WithState(y, Shutdown(y.state))
    case ForgetRoot(root) => WithState(y, RemoveRoot(y.state, root))
    case AskCompaction(root, epoch) => Asked(y, root, epoch)
    case BeginCompaction(worker) => Begun(y, worker)
    case EndCompaction(worker, retry) => Ended(y, worker, retry)
  }

  ghost function Run(policy: Policy, y: System, events: seq<Event>): System
    decreases |events|
  {
    if events == [] then y else Run(policy, Step(policy, y, events[0]), events[1..])
  }

  /** The ticket granted by an event, if it grants one. */
  function GrantedBy(y: System, e: Event): seq<Ticket> {
    if e.PollWaiter? && Poll(y.state, e.ticket, e.token).1.Granted? then [e.ticket] else []
  }

  /** Every ticket granted in a run, in order. */
  ghost function Grants(policy: Policy, y: System, events: seq<Event>): seq<Ticket>
    decreases |events|
  {
    if events == [] then [] else GrantedBy(y, events[0]) + Grants(policy, Step(policy, y, events[0]), events[1..])
  }

  /** Two runs in a row are one run. */
  lemma {:induction false} RunInTwo(policy: Policy, y: System, first: seq<Event>, second: seq<Event>)
    ensures Run(policy, y, first + second) == Run(policy, Run(policy, y, first), second)
    ensures Grants(policy, y, first + second)
         == Grants(policy, y, first) + Grants(policy, Run(policy, y, first), second)
    decreases |first|
  {
    if first == [] {
      assert first + second == second;
    } else {
      var z := Step(policy, y, first[0]);
      assert (first + second)[0] == first[0] && (first + second)[1..] == first[1..] + second;
      RunInTwo(policy, z, first[1..], second);
    }
  }
}
