/**
 The publication and the cleanup that run without interference are runs of the
 interleaved file operations (pathing.rs 210-262, 284-379), so the safety of all
 interleavings is also that of the sequential code.
 */
module DirectoryRuns {
  import opened Basics
  import opened Ordering
  import opened GenerationNames
  import opened Generations
  import opened GenerationSafety
  import opened IndexDirectory

  lemma {:induction false} RunInTwo(s: System, first: seq<Event>, second: seq<Event>)
    ensures Run(s, first + second) == Run(Run(s, first), second)
    decreases |first|
  {
    if first == [] {
      assert first + second == second;
    } else {
      assert (first + second)[0] == first[0] && (first + second)[1..] == first[1..] + second;
      RunInTwo(Step(s, first[0]), first[1..], second);
    }
  }

  lemma RunThrough(s: System, first: seq<Event>, middle: System, second: seq<Event>)
    requires Run(s, first) == middle
    ensures Run(s, first + second) == Run(middle, second)
  {
    RunInTwo(s, first, second);
  }

  lemma RunOfOne(s: System, e: Event)
    ensures Run(s, [e]) == Step(s, e)
  {
    assert [e][1..] == [];
    assert Run(Step(s, e), []) == Step(s, e);
  }

  /** A run, then one more event. */
  lemma RunThen(s: System, events: seq<Event>, e: Event)
    ensures Run(s, events + [e]) == Step(Run(s, events), e)
  {
    RunInTwo(s, events, [e]);
    RunOfOne(Run(s, events), e);
  }

  lemma RunThenFour(s: System, events: seq<Event>, a: Event, b: Event, c: Event, d: Event)
    ensures Run(s, events + [a] + [b] + [c] + [d]) == Step(Step(Step(Step(Run(s, events), a), b), c), d)
  {
    RunThen(s, events, a);
    RunThen(s, events + [a], b);
    RunThen(s, events + [a] + [b], c);
    RunThen(s, events + [a] + [b] + [c], d);
  }

  // ---------------------------------------------------------------- cleanup

  ghost predicate LeasedAre(s: System, leased: set<string>) { forall d :: d in leased <==> Leased(s, d) }

  /** A cleaner between two generations. */
  predicate Cleans(s: System, p: nat, locked: bool, active: Option<string>) {
    p in s.procs && s.procs[p] == Cleaning(locked, active, None)
  }

  lemma MinusLast(files: Files, paths: set<string>, path: string)
    requires path in paths
    ensures (files - (paths - {path})) - {path} == files - paths
  {
  }

  lemma {:induction false} RemoveFilesRun(s: System, p: nat, database: string, paths: set<string>)
    returns (events: seq<Event>)
    requires p in s.procs && s.procs[p].Cleaning? && s.procs[p].deleting == Some(database)
    requires forall path :: path in paths ==> BaseName(path) == database
    ensures Run(s, events) == s.(files := s.files - paths)
    decreases paths
  {
    events := [];
    if paths == {} {
      assert s.files - paths == s.files;
    } else {
      var path :| path in paths;
      var rest := RemoveFilesRun(s, p, database, paths - {path});
      RunThen(s, rest, RemoveGenerationFile(p, path));
      MinusLast(s.files, paths, path);
      events := rest + [RemoveGenerationFile(p, path)];
    }
  }

  lemma {:induction false} StaleRun(s: System, p: nat, paths: set<string>) returns (events: seq<Event>)
    requires p in s.procs && s.procs[p].Cleaning? && forall path :: path in paths ==> IsStagingName(path)
    ensures Run(s, events) == s.(files := s.files - paths)
    decreases paths
  {
    events := [];
    if paths == {} {
      assert s.files - paths == s.files;
    } else {
      var path :| path in paths;
      var rest := StaleRun(s, p, paths - {path});
      RunThen(s, rest, RemoveStale(p, path));
      MinusLast(s.files, paths, path);
      events := rest + [RemoveStale(p, path)];
    }
  }

  /** One generation: lock it, remove its files, unlock it; a leased one is passed over. */
  lemma GenerationRun(s: System, p: nat, active: string, database: string) returns (events: seq<Event>)
    requires Cleans(s, p, true, Some(active))
    requires IsGenerationDatabaseName(database) && '/' !in database
    ensures var gone := if database != active && !Leased(s, database) then FilesOf(s.files.Keys, database) else {};
      Run(s, events) == s.(files := s.files - gone)
  {
    events := [];
    if database == active || Leased(s, database) {
      assert s.files - {} == s.files;
    } else {
      var paths := FilesOf(s.files.Keys, database);
      var lock := LockGeneration(p, database);
      var locked := Step(s, lock);
      var removals := RemoveFilesRun(locked, p, database, paths);
      LockedRun(s, p, lock, removals);
      assert locked.procs[p := s.procs[p]] == s.procs;
      events := [lock] + removals + [UnlockGeneration(p)];
    }
  }

  lemma LockedRun(s: System, p: nat, lock: Event, removals: seq<Event>)
    ensures Run(s, [lock] + removals + [UnlockGeneration(p)]) == Step(Run(Step(s, lock), removals), UnlockGeneration(p))
  {
    RunInTwo(s, [lock], removals);
    RunOfOne(s, lock);
    RunThen(s, [lock] + removals, UnlockGeneration(p));
  }

  /** All of them, in ascending order. */
  lemma {:induction false} GenerationsRun(s: System, p: nat, active: string, databases: set<string>,
                                          leased: set<string>)
    returns (events: seq<Event>)
    requires Cleans(s, p, true, Some(active)) && LeasedAre(s, leased)
    requires forall d :: d in databases ==> IsGenerationDatabaseName(d) && '/' !in d
    ensures Run(s, events) == s.(files := Left(s.files, databases, active, leased))
    decreases databases
  {
    if databases == {} {
      events := NothingRun(s, active, leased);
    } else {
      var d := Greatest(databases);
      events := GenerationsRun(s, p, active, databases - {d}, leased);
      events := MoreGenerationsRun(s, p, active, databases - {d}, d, leased, events);
      assert databases - {d} + {d} == databases;
    }
  }

  lemma LastGenerationRun(s: System, p: nat, active: string, earlier: set<string>, d: string, leased: set<string>)
    returns (events: seq<Event>)
    requires Cleans(s, p, true, Some(active)) && LeasedAre(s, leased) && d !in earlier
    requires IsGenerationDatabaseName(d) && '/' !in d
    ensures Run(s.(files := Left(s.files, earlier, active, leased)), events)
         == s.(files := Left(s.files, earlier + {d}, active, leased))
  {
    var middle := s.(files := Left(s.files, earlier, active, leased));
    events := GenerationRun(middle, p, active, d);
    assert Leased(middle, d) == Leased(s, d);
    OneMoreDatabase(s.files, earlier, d, active, leased);
    LeftOfOther(s.files, earlier, d, active, leased);
  }

  lemma NothingRun(s: System, active: string, leased: set<string>) returns (events: seq<Event>)
    ensures Run(s, events) == s.(files := Left(s.files, {}, active, leased))
  {
    events := [];
    NothingDone(s.files, active, leased);
  }

  lemma MoreGenerationsRun(s: System, p: nat, active: string, earlier: set<string>, d: string, leased: set<string>,
                           before: seq<Event>)
    returns (events: seq<Event>)
    requires Cleans(s, p, true, Some(active)) && LeasedAre(s, leased) && d !in earlier
    requires IsGenerationDatabaseName(d) && '/' !in d
    requires Run(s, before) == s.(files := Left(s.files, earlier, active, leased))
    ensures Run(s, events) == s.(files := Left(s.files, earlier + {d}, active, leased))
  {
    var last := LastGenerationRun(s, p, active, earlier, d, leased);
    RunThrough(s, before, s.(files := Left(s.files, earlier, active, leased)), last);
    events := before + last;
  }

  /** The files of one database are untouched by the removal of others. */
  lemma LeftOfOther(files: Files, done: set<string>, d: string, active: string, leased: set<string>)
    requires d !in done
    ensures FilesOf(Left(files, done, active, leased).Keys, d) == FilesOf(files.Keys, d)
  {
  }

  lemma {:induction false} Greatest(keys: set<string>) returns (d: string)
    requires keys != {}
    ensures d in keys && forall e :: e in keys ==> StringLe(e, d)
  {
    d :| d in keys;
    var rest := keys - {d};
    StringLeReflexive(d);
    if rest == {} {
      assert keys == {d};
    } else {
      var other := Greatest(rest);
      StringLeTotal(d, other);
      forall e | e in rest && StringLe(other, d) ensures StringLe(e, d) {
        StringLeTransitive(e, other, d);
      }
      if !StringLe(other, d) {
        d := other;
      }
    }
  }

  /** The pass over the generations. */
  lemma PassRun(s: System, p: nat, locked: bool, leased: set<string>, failing: set<string>) returns (events: seq<Event>)
    requires Cleans(s, p, locked, ActiveGeneration(s.files)) && LeasedAre(s, leased)
    requires forall n :: n in s.files ==> '/' !in n
    ensures Run(s, events) == s.(files := GenerationsLeft(s.files, locked, leased, failing))
  {
    events := [];
    var active := ActiveGeneration(s.files);
    if locked && active.Some? {
      var databases := ReachedOf(Databases(s.files.Keys), active.value, failing);
      forall d | d in databases ensures IsGenerationDatabaseName(d) && '/' !in d {
        ReachedAreGenerations(s.files.Keys, active.value, failing, d);
        var n :| n in s.files && BaseName(n) == d;
        BaseIsPrefix(n);
      }
      events := GenerationsRun(s, p, active.value, databases, leased);
    }
  }

  /** The pass, and the stale staging files if it finishes. */
  lemma SweepRun(s: System, p: nat, locked: bool, leased: set<string>, failing: set<string>, aged: set<string>)
    returns (events: seq<Event>)
    requires Cleans(s, p, locked, ActiveGeneration(s.files)) && LeasedAre(s, leased)
    requires forall n :: n in s.files ==> '/' !in n
    ensures Run(s, events) == s.(files := CleanedFiles(s.files, locked, leased, failing, aged))
  {
    events := PassRun(s, p, locked, leased, failing);
    if Finishes(s.files, locked, failing) {
      var stale := StaleRun(Run(s, events), p, StaleOf(s.files.Keys, aged));
      RunInTwo(s, events, stale);
      events := events + stale;
    }
  }

  lemma ReadyRun(s: System, p: nat, locked: bool)
    requires p !in s.procs && (locked ==> s.lock.None?)
    ensures Run(s, [StartClean(p, locked)] + [ReadActive(p)])
         == System(s.files, if locked then Some(p) else s.lock,
                   s.procs[p := Cleaning(locked, ActiveGeneration(s.files), None)])
  {
    RunThen(s, [StartClean(p, locked)], ReadActive(p));
    RunOfOne(s, StartClean(p, locked));
  }

  lemma LeasesBeside(s: System, t: System, p: nat, proc: Process, leased: set<string>)
    requires p !in s.procs && proc.Cleaning? && t.procs == s.procs[p := proc] && LeasedAre(s, leased)
    ensures LeasedAre(t, leased)
  {
    forall d ensures Leased(t, d) <==> Leased(s, d) {
      if q :| q in s.procs && Leases(s.procs[q], d) {
        assert q in t.procs && Leases(t.procs[q], d);
      }
    }
  }

  /**
   The sequential cleanup is a run of a cleaner's file operations: whatever was leased when
   it ran, whichever lease could not be asked for, the directory it leaves is the one the
   run leaves, and the lock and the other processes are as before.
   */
  lemma CleanupIsARun(s: System, p: nat, locked: bool, leased: set<string>, failing: set<string>, aged: set<string>)
    returns (events: seq<Event>)
    requires p !in s.procs && (locked ==> s.lock.None?) && s.lock != Some(p)
    requires LeasedAre(s, leased) && forall n :: n in s.files ==> '/' !in n
    ensures Run(s, events) == s.(files := CleanedFiles(s.files, locked, leased, failing, aged))
  {
    var ready := Run(s, [StartClean(p, locked)] + [ReadActive(p)]);
    ReadyRun(s, p, locked);
    LeasesBeside(s, ready, p, ready.procs[p], leased);
    var sweep := SweepRun(ready, p, locked, leased, failing, aged);
    events := [StartClean(p, locked)] + [ReadActive(p)];
    RunInTwo(s, events, sweep);
    events := events + sweep;
    RunThen(s, events, EndClean(p));
    events := events + [EndClean(p)];
    assert ready.procs - {p} == s.procs;
  }

  // ---------------------------------------------------------------- readers

  lemma CheckStep(s: System, p: nat, database: string)
    requires p !in s.procs && s.lock.None?
    ensures var opening := System(s.files, Some(p), s.procs[p := Opening(database)]);
      Step(opening, CheckRead(p))
      == if database in s.files then s.(procs := s.procs[p := Reading(database)]) else s
  {
    assert s.procs[p := Opening(database)] - {p} == s.procs;
    assert s.procs[p := Opening(database)][p := Reading(database)] == s.procs[p := Reading(database)];
  }

  lemma EndStep(s: System, p: nat, database: string)
    requires p !in s.procs && s.lock.None?
    ensures var reading := s.(procs := s.procs[p := Reading(database)]);
      Leased(reading, database) && Step(reading, EndRead(p)) == s
  {
    var reading := s.(procs := s.procs[p := Reading(database)]);
    assert reading.procs - {p} == s.procs;
    assert p in reading.procs && Leases(reading.procs[p], database);
  }

  /**
   A reader that finds the lock free takes its lease and, if the database is there, keeps it
   without the lock until it ends; if not, it is as though it had not come.
   */
  lemma ReaderIsARun(s: System, p: nat, database: string)
    requires p !in s.procs && s.lock.None? && IsGenerationDatabaseName(database) && '/' !in database
    ensures var t := Run(s, [StartRead(p, database)] + [CheckRead(p)]);
      (database in s.files ==> t == s.(procs := s.procs[p := Reading(database)]) && Leased(t, database)
                               && Step(t, EndRead(p)) == s)
      && (database !in s.files ==> t == s)
  {
    RunOfOne(s, StartRead(p, database));
    RunThen(s, [StartRead(p, database)], CheckRead(p));
    CheckStep(s, p, database);
    EndStep(s, p, database);
  }

  /** A crash takes its process and the lock it holds, and leaves every file and every other process. */
  lemma CrashLeavesFiles(s: System, p: nat)
    ensures var t := Step(s, Crash(p));
      t.files == s.files && p !in t.procs && (p in s.procs ==> t.lock == if s.lock == Some(p) then None else s.lock)
      && forall q :: q != p ==> (q in t.procs <==> q in s.procs) && (q in s.procs ==> t.procs[q] == s.procs[q])
  {
  }

  /** While the lock is held no reader and no other publication starts. */
  lemma LockKeepsOut(s: System, p: nat, database: string, staging: string, generation: nat)
    requires s.lock.Some?
    ensures Step(s, StartRead(p, database)) == s && Step(s, StartPublish(p, staging, generation)) == s
    ensures Step(s, StartClean(p, true)) == s
  {
  }

  // ---------------------------------------------------------------- publication

  function PublicationEvents(p: nat, staging: string, generation: nat): seq<Event> {
    [StartPublish(p, staging, generation)] + [Seal(p)] + [CreateTmp(p)] + [WriteTmp(p, "", true)] + [Swap(p)]
    + [EndPublish(p)]
  }

  /** The drop guard after a failure: one removal for the database and for each of its sidecars. */
  function GuardEvents(p: nat): seq<Event> {
    [Fail(p), Undo(p, true), Undo(p, true), Undo(p, true), Undo(p, true), EndPublish(p)]
  }

  function FailedPublicationEvents(p: nat, staging: string, generation: nat): seq<Event> {
    [StartPublish(p, staging, generation), Seal(p)] + GuardEvents(p)
  }

  predicate MayPublish(s: System, p: nat, staging: string, generation: nat) {
    p !in s.procs && s.lock.None? && Accepts(s.files, staging) && generation <= U64_MAX
  }

  lemma StartedStep(s: System, p: nat, staging: string, generation: nat)
    requires MayPublish(s, p, staging, generation)
    ensures Step(s, StartPublish(p, staging, generation))
         == System(s.files, Some(p), s.procs[p := Sealing(PublicationOf(staging, generation))])
  {
  }

  lemma SealStep(s: System, p: nat, pub: Publication)
    requires p in s.procs && s.procs[p] == Sealing(pub) && pub.staging in s.files
    ensures Step(s, Seal(p)) == System(Rename(s.files, pub.staging, pub.final), s.lock, s.procs[p := Sealed(pub)])
  {
  }

  lemma SealedRun(s: System, p: nat, staging: string, generation: nat)
    requires MayPublish(s, p, staging, generation)
    ensures var pub := PublicationOf(staging, generation);
      Run(s, [StartPublish(p, staging, generation)] + [Seal(p)])
      == System(Rename(s.files, staging, pub.final), Some(p), s.procs[p := Sealed(pub)])
  {
    var pub := PublicationOf(staging, generation);
    var started := Step(s, StartPublish(p, staging, generation));
    StartedStep(s, p, staging, generation);
    SealStep(started, p, pub);
    RunOfOne(s, StartPublish(p, staging, generation));
    RunThen(s, [StartPublish(p, staging, generation)], Seal(p));
    assert started.procs[p := Sealed(pub)] == s.procs[p := Sealed(pub)];
  }

  /** The sequential publication that succeeds is the run of its five file operations. */
  lemma PublishIsARun(s: System, p: nat, staging: string, generation: nat)
    requires MayPublish(s, p, staging, generation) && PublicationOf(staging, generation).tmp !in s.files
    ensures Run(s, PublicationEvents(p, staging, generation))
         == s.(files := PublishedFiles(s.files, PublicationOf(staging, generation)))
  {
    var pub := PublicationOf(staging, generation);
    NamesAreWell(staging, generation);
    NamesAreApart(pub);
    SealedRun(s, p, staging, generation);
    var events := [StartPublish(p, staging, generation)] + [Seal(p)];
    var sealed := Run(s, events);
    WrittenRun(sealed, p, pub);
    RunThenFour(s, events, CreateTmp(p), WriteTmp(p, "", true), Swap(p), EndPublish(p));
    assert sealed.procs[p := Published(pub)] - {p} == s.procs;
  }

  lemma WrittenRun(s: System, p: nat, pub: Publication)
    requires p in s.procs && s.procs[p] == Sealed(pub) && pub.tmp !in s.files && pub.tmp != MANIFEST
    ensures var t := Step(Step(Step(s, CreateTmp(p)), WriteTmp(p, "", true)), Swap(p));
      t == s.(files := s.files[MANIFEST := pub.final + "\n"], procs := s.procs[p := Published(pub)])
  {
    var t := Step(Step(Step(s, CreateTmp(p)), WriteTmp(p, "", true)), Swap(p));
    assert t.files == s.files[MANIFEST := pub.final + "\n"];
    assert t.procs == s.procs[p := Published(pub)];
  }

  /** The one that fails after its seal is a run of its drop guard. */
  lemma AbandonIsARun(s: System, p: nat, staging: string, generation: nat)
    requires MayPublish(s, p, staging, generation)
    ensures Run(s, FailedPublicationEvents(p, staging, generation))
         == s.(files := AbandonedFiles(s.files, PublicationOf(staging, generation)))
  {
    var pub := PublicationOf(staging, generation);
    var events := [StartPublish(p, staging, generation)] + [Seal(p)];
    SealedRun(s, p, staging, generation);
    UndoneRun(Run(s, events), p, pub);
    RunInTwo(s, events, GuardEvents(p));
    assert events + GuardEvents(p) == FailedPublicationEvents(p, staging, generation);
    assert s.procs[p := Sealed(pub)] - {p} == s.procs;
    FinalStaysOut(s.files, pub);
  }

  lemma FinalStaysOut(files: Files, pub: Publication)
    requires pub.staging in files
    ensures Rename(files, pub.staging, pub.final) - FamilySet(pub.final) == AbandonedFiles(files, pub)
  {
  }

  /** One removal of the drop guard. */
  lemma UndoOne(s: System, p: nat, pub: Publication, todo: seq<string>)
    requires p in s.procs && s.procs[p] == Undoing(pub, todo) && todo != []
    ensures Step(s, Undo(p, true)) == s.(files := s.files - {todo[0]}, procs := s.procs[p := Undoing(pub, todo[1..])])
  {
  }

  /** All of them, in the order of the list. */
  lemma {:induction false} UndoAll(s: System, p: nat, pub: Publication, todo: seq<string>)
    requires p in s.procs && s.procs[p] == Undoing(pub, todo)
    ensures Run(s, seq(|todo|, i => Undo(p, true)))
         == s.(files := s.files - (set n | n in todo), procs := s.procs[p := Undoing(pub, [])])
    decreases |todo|
  {
    var undos := seq(|todo|, i => Undo(p, true));
    if todo == [] {
      assert s.files - (set n | n in todo) == s.files && s.procs[p := Undoing(pub, [])] == s.procs;
    } else {
      var t := Step(s, undos[0]);
      UndoOne(s, p, pub, todo);
      UndoAll(t, p, pub, todo[1..]);
      assert undos[1..] == seq(|todo[1..]|, i => Undo(p, true));
      assert (set n | n in todo) == {todo[0]} + (set n | n in todo[1..]);
      MinusTwice(s.files, {todo[0]}, set n | n in todo[1..]);
      assert s.procs[p := Undoing(pub, todo[1..])][p := Undoing(pub, [])] == s.procs[p := Undoing(pub, [])];
    }
  }

  lemma FamilyIsItsSet(database: string)
    ensures (set n | n in Family(database)) == FamilySet(database)
  {
  }

  lemma GuardRun(s: System, p: nat)
    ensures Run(s, GuardEvents(p)) == Step(Run(Step(s, Fail(p)), seq(4, i => Undo(p, true))), EndPublish(p))
  {
    var undos := seq(4, i => Undo(p, true));
    RunOfOne(s, Fail(p));
    RunInTwo(s, [Fail(p)], undos);
    RunThen(s, [Fail(p)] + undos, EndPublish(p));
    assert GuardEvents(p) == [Fail(p)] + undos + [EndPublish(p)];
  }

  lemma GuardUndoes(s: System, p: nat, pub: Publication, todo: seq<string>)
    requires p in s.procs && s.procs[p] == Sealed(pub) && |todo| == 4
    requires Step(s, Fail(p)) == s.(procs := s.procs[p := Undoing(pub, todo)])
    ensures Run(s, GuardEvents(p)) == Leave(s.(files := s.files - set n | n in todo), p)
  {
    var failed := Step(s, Fail(p));
    UndoAll(failed, p, pub, todo);
    GuardRun(s, p);
    assert failed.procs[p := Undoing(pub, [])] - {p} == s.procs - {p};
  }

  lemma UndoneRun(s: System, p: nat, pub: Publication)
    requires p in s.procs && s.procs[p] == Sealed(pub)
    ensures Run(s, GuardEvents(p)) == Leave(s.(files := s.files - FamilySet(pub.final)), p)
  {
    var todo := Family(pub.final);
    assert [] + todo == todo;
    GuardUndoes(s, p, pub, todo);
    FamilyIsItsSet(pub.final);
  }
}
