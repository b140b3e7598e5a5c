/**
 Publication, cleanup and reader leases over one index directory (pathing.rs 27-54,
 164-199, 210-262, 284-379; pathing/leases.rs; store/generation_lease.rs). Every file
 operation is one step, processes interleave freely, and any of them may crash
 between two steps. The family lock is held by at most one process; a crash frees it.
 */
module Generations {
  import opened Basics
  import opened GenerationNames

  type Files = map<string, string>

  datatype ResolveError = InvalidManifest | MissingDatabase

  datatype Resolved = Found(name: string) | NotResolved(error: ResolveError)

  /** `resolve_active_index`. Without a manifest the legacy name is returned unchecked. */
  function Resolve(files: Files): Resolved {
    if MANIFEST !in files then Found(LEGACY)
    else
      var name := Trim(files[MANIFEST]);
      if !IsIndexName(name) then NotResolved(InvalidManifest)
      else if name !in files then NotResolved(MissingDatabase)
      else Found(name)
  }

  /** The generation cleanup has to spare; without one it deletes no generation. */
  function ActiveGeneration(files: Files): Option<string> {
    if MANIFEST in files && Resolve(files).Found? then Some(Resolve(files).name) else None
  }

  function Family(database: string): seq<string> {
    [database, database + "-wal", database + "-shm", database + "-journal"]
  }

  // ---------------------------------------------------------------- processes

  datatype Publication = Publication(staging: string, final: string, tmp: string)

  datatype Process =
    | Sealing(pub: Publication)                         // lease taken, nothing done
    | Sealed(pub: Publication)                          // database renamed, drop guard armed
    | Writing(pub: Publication)                         // manifest staging created
    | Written(pub: Publication)                         // manifest staging complete
    | Undoing(pub: Publication, todo: seq<string>)      // drop guard at work
    | Published(pub: Publication)                       // manifest replaced
    | Cleaning(locked: bool, active: Option<string>, deleting: Option<string>)
    | Opening(name: string)                             // shared lease taken under the family lock
    | Reading(name: string)

  datatype System = System(files: Files, lock: Option<nat>, procs: map<nat, Process>)

  datatype Event =
    | Build(staging: string, text: string)
    | StartPublish(p: nat, staging: string, generation: nat)
    | Seal(p: nat)
    | CreateTmp(p: nat)
    | WriteTmp(p: nat, text: string, complete: bool)
    | Swap(p: nat)
    | Fail(p: nat)
    | Undo(p: nat, succeeds: bool)
    | EndPublish(p: nat)
    | StartClean(p: nat, locked: bool)
    | ReadActive(p: nat)
    | LockGeneration(p: nat, database: string)
    | RemoveGenerationFile(p: nat, path: string)
    | UnlockGeneration(p: nat)
    | RemoveStale(p: nat, path: string)
    | EndClean(p: nat)
    | StartRead(p: nat, database: string)
    | CheckRead(p: nat)
    | EndRead(p: nat)
    | Crash(p: nat)

  predicate Leases(proc: Process, name: string) {
    (proc.Opening? || proc.Reading?) && proc.name == name
  }

  ghost predicate Leased(s: System, name: string) {
    exists p :: p in s.procs && Leases(s.procs[p], name)
  }

  predicate HoldsLock(proc: Process) {
    !proc.Reading? && (proc.Cleaning? ==> proc.locked)
  }

  predicate Unpublished(proc: Process) {
    proc.Sealed? || proc.Writing? || proc.Written? || proc.Undoing?
  }

  function Become(s: System, p: nat, proc: Process): System { s.(procs := s.procs[p := proc]) }

  function Leave(s: System, p: nat): System {
    s.(procs := s.procs - {p}, lock := if s.lock == Some(p) then None else s.lock)
  }

  function Remove(files: Files, name: string): Files { files - {name} }

  function Rename(files: Files, source: string, destination: string): Files
    requires source in files
  {
    (files - {source})[destination := files[source]]
  }

  /** What the drop guard removes: the manifest staging it created, then the sealed database. */
  function GuardTodo(proc: Process): seq<string>
    requires Unpublished(proc)
  {
    if proc.Undoing? then proc.todo
    else (if proc.Sealed? then [] else [proc.pub.tmp]) + Family(proc.pub.final)
  }

  // ---------------------------------------------------------------- the steps of a publication

  function Started(s: System, p: nat, staging: string, generation: nat): System {
    var token := Token(staging);
    if p in s.procs || s.lock.Some? then s
    else if staging !in s.files || '/' in staging || token.None? || generation > U64_MAX then s
    else
      var pub := Publication(staging, FinalName(generation, token.value), TmpName(token.value));
      Become(s, p, Sealing(pub)).(lock := Some(p))
  }

  function AfterSeal(s: System, p: nat): System {
    if !(p in s.procs && s.procs[p].Sealing?) then s
    else if s.procs[p].pub.staging !in s.files then Leave(s, p)
    else
      var pub := s.procs[p].pub;
      Become(s, p, Sealed(pub)).(files := Rename(s.files, pub.staging, pub.final))
  }

  function AfterCreateTmp(s: System, p: nat): System {
    if !(p in s.procs && s.procs[p].Sealed?) then s
    else
      var pub := s.procs[p].pub;
      if pub.tmp in s.files then Become(s, p, Undoing(pub, GuardTodo(s.procs[p])))
      else Become(s, p, Writing(pub)).(files := s.files[pub.tmp := ""])
  }

  /** A write goes to the open file; once that is unlinked it changes no name. */
  function AfterWriteTmp(s: System, p: nat, text: string, complete: bool): System {
    if !(p in s.procs && s.procs[p].Writing?) then s
    else
      var pub := s.procs[p].pub;
      var content := if complete then pub.final + "\n" else text;
      Become(s, p, if complete then Written(pub) else Writing(pub)).(
        files := if pub.tmp in s.files then s.files[pub.tmp := content] else s.files)
  }

  function AfterSwap(s: System, p: nat): System {
    if !(p in s.procs && s.procs[p].Written?) then s
    else
      var pub := s.procs[p].pub;
      if pub.tmp !in s.files then Become(s, p, Undoing(pub, GuardTodo(s.procs[p])))
      else Become(s, p, Published(pub)).(files := Rename(s.files, pub.tmp, MANIFEST))
  }

  /** Any other I/O error: the guard takes over, if it is armed. */
  function AfterFail(s: System, p: nat): System {
    if p in s.procs && s.procs[p].Sealing? then Leave(s, p)
    else if p in s.procs && Unpublished(s.procs[p]) && !s.procs[p].Undoing?
    then Become(s, p, Undoing(s.procs[p].pub, GuardTodo(s.procs[p])))
    else s
  }

  function AfterUndo(s: System, p: nat, succeeds: bool): System {
    if !(p in s.procs && s.procs[p].Undoing? && s.procs[p].todo != []) then s
    else
      var proc := s.procs[p];
      Become(s, p, Undoing(proc.pub, proc.todo[1..])).(
        files := if succeeds then Remove(s.files, proc.todo[0]) else s.files)
  }

  function AfterEndPublish(s: System, p: nat): System {
    if p in s.procs && (s.procs[p].Published? || (s.procs[p].Undoing? && s.procs[p].todo == [])) then Leave(s, p) else s
  }

  // ---------------------------------------------------------------- the steps of a cleanup

  /** With the lock when it is free; without it only stale staging files can go. */
  function AfterStartClean(s: System, p: nat, locked: bool): System {
    if p in s.procs || (locked && s.lock.Some?) then s
    else
      Become(s, p, Cleaning(locked, None, None)).(lock := if locked then Some(p) else s.lock)
  }

  function AfterReadActive(s: System, p: nat): System {
    if p in s.procs && s.procs[p].Cleaning? && s.procs[p].deleting.None?
    then Become(s, p, s.procs[p].(active := ActiveGeneration(s.files)))
    else s
  }

  ghost function AfterLockGeneration(s: System, p: nat, database: string): System {
    if p in s.procs && s.procs[p].Cleaning? && s.procs[p].locked && s.procs[p].deleting.None?
       && s.procs[p].active.Some? && IsGenerationDatabaseName(database) && '/' !in database
       && database != s.procs[p].active.value && !Leased(s, database)
    then Become(s, p, s.procs[p].(deleting := Some(database)))
    else s
  }

  function AfterRemoveGenerationFile(s: System, p: nat, path: string): System {
    if p in s.procs && s.procs[p].Cleaning? && s.procs[p].deleting == Some(BaseName(path))
    then s.(files := Remove(s.files, path))
    else s
  }

  function AfterUnlockGeneration(s: System, p: nat): System {
    if p in s.procs && s.procs[p].Cleaning? then Become(s, p, s.procs[p].(deleting := None)) else s
  }

  function AfterRemoveStale(s: System, p: nat, path: string): System {
    if p in s.procs && s.procs[p].Cleaning? && IsStagingName(path) then s.(files := Remove(s.files, path)) else s
  }

  function AfterEndClean(s: System, p: nat): System {
    if p in s.procs && s.procs[p].Cleaning? then Leave(s, p) else s
  }

  // ---------------------------------------------------------------- the steps of a reader

  function AfterStartRead(s: System, p: nat, database: string): System {
    if p in s.procs || s.lock.Some? || !IsGenerationDatabaseName(database) || '/' in database then s
    else Become(s, p, Opening(database)).(lock := Some(p))
  }

  /** The database must still be there; then the family lock is let go, not the lease. */
  function AfterCheckRead(s: System, p: nat): System {
    if !(p in s.procs && s.procs[p].Opening?) then s
    else if s.procs[p].name in s.files then Leave(s, p).(procs := s.procs[p := Reading(s.procs[p].name)])
    else Leave(s, p)
  }

  function AfterEndRead(s: System, p: nat): System {
    if p in s.procs && s.procs[p].Reading? then Leave(s, p) else s
  }

  // ---------------------------------------------------------------- runs

  ghost function Step(s: System, e: Event): System {
    match e
    case Build(staging, text) =>
      if StartsWith(staging, "index-build-") && '/' !in staging then s.(files := s.files[staging := text]) else s
    case StartPublish(p, staging, generation) => Started(s, p, staging, generation)
    case Seal(p) => AfterSeal(s, p)
    case CreateTmp(p) => AfterCreateTmp(s, p)
    case WriteTmp(p, text, complete) => AfterWriteTmp(s, p, text, complete)
    case Swap(p) => AfterSwap(s, p)
    case Fail(p) => AfterFail(s, p)
    case Undo(p, succeeds) => AfterUndo(s, p, succeeds)
    case EndPublish(p) => AfterEndPublish(s, p)
    case StartClean(p, locked) => AfterStartClean(s, p, locked)
    case ReadActive(p) => AfterReadActive(s, p)
    case LockGeneration(p, database) => AfterLockGeneration(s, p, database)
    case RemoveGenerationFile(p, path) => AfterRemoveGenerationFile(s, p, path)
    case UnlockGeneration(p) => AfterUnlockGeneration(s, p)
    case RemoveStale(p, path) => AfterRemoveStale(s, p, path)
    case EndClean(p) => AfterEndClean(s, p)
    case StartRead(p, database) => AfterStartRead(s, p, database)
    case CheckRead(p) => AfterCheckRead(s, p)
    case EndRead(p) => AfterEndRead(s, p)
    case Crash(p) => if p in s.procs then Leave(s, p) else s
  }

  ghost function Run(s: System, events: seq<Event>): System
    decreases |events|
  {
    if events == [] then s else Run(Step(s, events[0]), events[1..])
  }
}
