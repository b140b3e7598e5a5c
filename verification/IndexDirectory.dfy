/**
 Publication, its drop guard and cleanup as the code runs them, over one directory
 and without interference (pathing.rs 164-199, 210-262, 284-379). The interleaved
 runs of the same steps are in Generations and GenerationSafety.
 */
module IndexDirectory {
  import opened Basics
  import opened Ordering
  import opened GenerationNames
  import opened Generations
  import opened GenerationSafety

  /** The I/O operation that fails, if one does. */
  datatype Fault = NoFault | RenameFails | CreateFails | WriteFails | ReplaceFails

  // ---------------------------------------------------------------- publication

  function PublicationOf(staging: string, generation: nat): Publication
    requires Token(staging).Some?
  {
    var token := Token(staging).value;
    Publication(staging, FinalName(generation, token), TmpName(token))
  }

  function PublishedFiles(files: Files, pub: Publication): Files
    requires pub.staging in files
  {
    Rename(files, pub.staging, pub.final)[MANIFEST := pub.final + "\n"]
  }

  function FamilySet(database: string): set<string> {
    {database, database + "-wal", database + "-shm", database + "-journal"}
  }

  /** What is left when the publication fails after its seal: the staging database is gone too. */
  function AbandonedFiles(files: Files, pub: Publication): Files {
    files - {pub.staging} - FamilySet(pub.final)
  }

  predicate Accepts(files: Files, staging: string) {
    staging in files && '/' !in staging && Token(staging).Some?
  }

  // ---------------------------------------------------------------- cleanup

  predicate IsStale(name: string, aged: set<string>) {
    !IsGenerationDatabaseName(BaseName(name)) && IsStagingName(name) && name in aged
  }

  /** The databases, in ascending order, whose turn comes before a lease that cannot be asked for. */
  function ReachedOf(databases: set<string>, active: string, failing: set<string>): set<string> {
    set d | d in databases && (forall f :: f in databases && f in failing && f != active ==> StringLt(d, f))
  }

  /** No database but the active one stops the pass. */
  predicate Completes(databases: set<string>, active: string, failing: set<string>) {
    forall f :: f in databases && f in failing ==> f == active
  }

  /** What the pass over the generations leaves. */
  function GenerationsLeft(files: Files, locked: bool, leased: set<string>, failing: set<string>): Files {
    var active := ActiveGeneration(files);
    if !locked || active.None? then files
    else Left(files, ReachedOf(Databases(files.Keys), active.value, failing), active.value, leased)
  }

  predicate Finishes(files: Files, locked: bool, failing: set<string>) {
    var active := ActiveGeneration(files);
    !locked || active.None? || Completes(Databases(files.Keys), active.value, failing)
  }

  /**
   What cleanup leaves. `locked` says whether the cleanup lease was obtained, `failing` for
   which databases asking for the deletion lease is an error, `aged` what is older than the
   cutoff. An error ends the pass over the generations, which is in ascending order, and
   nothing stale goes.
   */
  function CleanedFiles(files: Files, locked: bool, leased: set<string>, failing: set<string>, aged: set<string>)
    : Files
  {
    var left := GenerationsLeft(files, locked, leased, failing);
    if Finishes(files, locked, failing) then left - StaleOf(files.Keys, aged) else left
  }

  /** Asking for the deletion lease of that file's database is an error, and the pass asks for it. */
  predicate Stops(files: Files, name: string, failing: set<string>)
    requires MANIFEST in files && Resolve(files).Found?
  {
    name in files && IsGenerationDatabaseName(BaseName(name))
    && BaseName(name) in failing && BaseName(name) != Resolve(files).name
  }

  /** The lease is there, the manifest readable, the generation spare, and the pass gets to it. */
  ghost predicate GenerationGoes(files: Files, locked: bool, leased: set<string>, failing: set<string>,
                                 database: string)
  {
    locked && MANIFEST in files && Resolve(files).Found?
    && database != Resolve(files).name && database !in leased
    && forall m :: Stops(files, m, failing) ==> StringLt(database, BaseName(m))
  }

  /** Of the files of generations, those of the ones that go are gone, and no others. */
  ghost predicate GoneExactly(before: Files, after: Files, locked: bool, leased: set<string>, failing: set<string>) {
    forall n :: n in before && IsGenerationDatabaseName(BaseName(n)) ==>
      (n !in after <==> GenerationGoes(before, locked, leased, failing, BaseName(n)))
  }

  /** Of the staging files the aged ones are gone if the pass finished, and no others. */
  ghost predicate StagingGone(before: Files, after: Files, finished: bool, aged: set<string>) {
    forall n :: n in before
      && (StartsWith(n, "index-build-") || (StartsWith(n, "active-index-") && EndsWith(n, ".tmp")))
      ==> (n !in after <==> finished && n in aged)
  }

  /** Everything else stays, nothing comes, and no content changes. */
  ghost predicate OthersStay(before: Files, after: Files) {
    (forall n :: n in before && !IsGenerationDatabaseName(BaseName(n))
      && !(StartsWith(n, "index-build-") || (StartsWith(n, "active-index-") && EndsWith(n, ".tmp")))
      ==> n in after)
    && forall n :: n in after ==> n in before && after[n] == before[n]
  }

  /** The pass stops early when the lease is there, the manifest readable and some generation's lease fails. */
  ghost predicate StopsEarly(files: Files, locked: bool, failing: set<string>) {
    locked && MANIFEST in files && Resolve(files).Found? && exists m :: Stops(files, m, failing)
  }

  class Directory {
    var files: Files

    constructor (files: Files)
      ensures this.files == files
    {
      this.files := files;
    }

    method RemoveFile(name: string) returns (removed: bool)
      modifies this
      ensures files == old(files) - {name} && removed == (name in old(files))
    {
      removed := name in files;
      files := files - {name};
    }

    method RemoveFour(a: string, b: string, c: string, d: string)
      modifies this
      ensures files == old(files) - {a, b, c, d}
    {
      ghost var before := files;
      var _ := RemoveFile(a);
      var _ := RemoveFile(b);
      MinusTwice(before, {a}, {b});
      ghost var middle := files;
      var _ := RemoveFile(c);
      var _ := RemoveFile(d);
      MinusTwice(middle, {c}, {d});
      MinusTwice(before, {a} + {b}, {c} + {d});
      assert ({a} + {b}) + ({c} + {d}) == {a, b, c, d};
    }

    /** The drop guard: manifest staging if it was created here, then the database and its sidecars. */
    method Abandon(pub: Publication, ownsTmp: bool)
      modifies this
      ensures files == old(files) - (if ownsTmp then {pub.tmp} else {}) - FamilySet(pub.final)
    {
      if ownsTmp {
        var _ := RemoveFile(pub.tmp);
      } else {
        assert files - {} == files;
      }
      RemoveFour(pub.final, pub.final + "-wal", pub.final + "-shm", pub.final + "-journal");
    }

    /** Write the manifest aside and replace the old one with it. A collision is left alone. */
    method SwapManifest(pub: Publication, fault: Fault) returns (swapped: bool, ownsTmp: bool)
      requires WellNamed(pub)
      modifies this
      ensures swapped <==> pub.tmp !in old(files) && fault in {NoFault, RenameFails}
      ensures swapped ==> files == old(files)[MANIFEST := pub.final + "\n"]
      ensures !swapped ==> files - (if ownsTmp then {pub.tmp} else {}) == old(files)
    {
      swapped, ownsTmp := false, false;
      if pub.tmp in files || fault == CreateFails {
        return;
      }
      NamesAreApart(pub);
      files := files[pub.tmp := ""];
      ownsTmp := true;
      if fault == WriteFails {
        return;
      }
      files := files[pub.tmp := pub.final + "\n"];
      if fault == ReplaceFails {
        return;
      }
      files := Rename(files, pub.tmp, MANIFEST);
      swapped := true;
    }

    method Publish(staging: string, generation: nat, fault: Fault) returns (r: Option<string>)
      requires generation <= U64_MAX
      modifies this
      ensures !Accepts(old(files), staging) || fault == RenameFails ==> r.None? && files == old(files)
      ensures Accepts(old(files), staging) && fault != RenameFails ==>
        var pub := PublicationOf(staging, generation);
        if fault == NoFault && pub.tmp !in old(files)
        then r == Some(pub.final) && files == PublishedFiles(old(files), pub)
        else r.None? && files == AbandonedFiles(old(files), pub)
    {
      if staging !in files || '/' in staging || Token(staging).None? || fault == RenameFails {
        return None;
      }
      var pub := PublicationOf(staging, generation);
      NamesAreWell(staging, generation);
      NamesAreApart(pub);
      files := Rename(files, staging, pub.final);
      var swapped, ownsTmp := SwapManifest(pub, fault);
      if !swapped {
        Abandon(pub, ownsTmp);
        return None;
      }
      r := Some(pub.final);
    }

    /** One pass over the directory entries: generation files by database, and stale staging files. */
    method Classify(aged: set<string>) returns (generations: map<string, set<string>>, stale: set<string>)
      ensures Grouped(generations, files.Keys) && stale == StaleOf(files.Keys, aged)
    {
      generations, stale := map[], {};
      var rest := files.Keys;
      ghost var seen := {};
      while rest != {}
        invariant seen + rest == files.Keys
        invariant Grouped(generations, seen) && stale == StaleOf(seen, aged)
      {
        var name :| name in rest;
        var base := BaseName(name);
        OneMoreStale(seen, name, aged);
        if IsGenerationDatabaseName(base) {
          OneMoreGenerationFile(generations, seen, name);
          generations := generations[base := PathsOf(generations, base) + {name}];
        } else {
          OneMoreOtherFile(generations, seen, name);
          if IsStagingName(name) && name in aged {
            stale := stale + {name};
          }
        }
        rest, seen := rest - {name}, seen + {name};
      }
      assert seen == files.Keys;
    }

    /** Remove the paths that are there, and count them. */
    method RemoveAll(paths: set<string>) returns (removed: nat)
      modifies this
      ensures files == old(files) - paths
      ensures removed == |old(files)| - |files|
    {
      removed := 0;
      var rest := paths;
      ghost var before, gone := files, {};
      while rest != {}
        invariant gone + rest == paths
        invariant files == before - gone && removed == |before| - |files|
        decreases rest
      {
        var path :| path in rest;
        MinusTwice(before, gone, {path});
        SizeWithout(files, path);
        var ok := RemoveFile(path);
        removed := if ok then removed + 1 else removed;
        rest, gone := rest - {path}, gone + {path};
      }
    }

    /**
     Every generation but the active and the leased ones goes, file by file and in ascending
     order, until a deletion lease cannot be asked for.
     */
    method RemoveGenerations(generations: map<string, set<string>>, active: string, leased: set<string>,
                             failing: set<string>)
      returns (removed: nat, completed: bool)
      requires Grouped(generations, files.Keys)
      modifies this
      ensures files == Left(old(files), ReachedOf(generations.Keys, active, failing), active, leased)
      ensures completed <==> Completes(generations.Keys, active, failing)
      ensures removed == |old(files)| - |files|
    {
      removed, completed := 0, true;
      var rest := generations.Keys;
      ghost var before, done := files, {};
      NothingDone(before, active, leased);
      while rest != {}
        invariant InOrder(done, rest, generations.Keys) && Completes(done, active, failing)
        invariant files == Left(before, done, active, leased) && removed == |before| - |files|
        decreases rest
      {
        LeastExists(rest);
        var database :| database in rest && IsLeast(database, rest);
        if database != active && database in failing {
          StoppedAt(generations.Keys, done, rest, database, active, failing);
          return removed, false;
        }
        var n := RemoveGeneration(generations, database, active, leased, before, done);
        NextInOrder(done, rest, generations.Keys, database);
        removed, rest, done := removed + n, rest - {database}, done + {database};
      }
      assert done == generations.Keys;
      AllReached(done, active, failing);
    }

    method RemoveGeneration(generations: map<string, set<string>>, database: string, active: string,
                            leased: set<string>, ghost before: Files, ghost done: set<string>)
      returns (removed: nat)
      requires Grouped(generations, before.Keys) && database in generations
      requires files == Left(before, done, active, leased)
      modifies this
      ensures files == Left(before, done + {database}, active, leased)
      ensures removed == |old(files)| - |files|
    {
      OneMoreDatabase(before, done, database, active, leased);
      removed := 0;
      if database != active && database !in leased {
        removed := RemoveAll(generations[database]);
      }
    }

    /** Without the lease or a readable manifest no generation goes. */
    method CleanGenerations(generations: map<string, set<string>>, locked: bool, leased: set<string>,
                             failing: set<string>)
      returns (removed: nat, completed: bool)
      requires Grouped(generations, files.Keys)
      modifies this
      ensures files == GenerationsLeft(old(files), locked, leased, failing)
      ensures completed <==> Finishes(old(files), locked, failing)
      ensures removed == |old(files)| - |files|
    {
      removed, completed := 0, true;
      var active := if MANIFEST in files && Resolve(files).Found? then Some(Resolve(files).name) else None;
      if locked && active.Some? {
        removed, completed := RemoveGenerations(generations, active.value, leased, failing);
      }
    }

    /** The stale staging files, unless an error has ended the pass. */
    method CleanStale(stale: set<string>, completed: bool, count: nat, ghost total: nat) returns (removed: Option<nat>)
      requires count == total - |files|
      modifies this
      ensures files == (if completed then old(files) - stale else old(files))
      ensures removed == if completed then Some(total - |files|) else None
    {
      if !completed {
        return None;
      }
      var n := RemoveAll(stale);
      removed := Some(count + n);
    }

    /** The number of files removed, or an error. */
    method Cleanup(locked: bool, leased: set<string>, failing: set<string>, aged: set<string>)
      returns (removed: Option<nat>)
      modifies this
      ensures files == CleanedFiles(old(files), locked, leased, failing, aged)
      ensures GoneExactly(old(files), files, locked, leased, failing)
      ensures StagingGone(old(files), files, removed.Some?, aged)
      ensures OthersStay(old(files), files)
      ensures removed.None? <==> StopsEarly(old(files), locked, failing)
      ensures removed.Some? ==> removed.value == |old(files)| - |files|
    {
      removed := Sweep(locked, leased, failing, aged);
      CleanupIsExact(old(files), files, removed, locked, leased, failing, aged);
    }

    method Sweep(locked: bool, leased: set<string>, failing: set<string>, aged: set<string>)
      returns (removed: Option<nat>)
      modifies this
      ensures files == CleanedFiles(old(files), locked, leased, failing, aged)
      ensures removed == if Finishes(old(files), locked, failing) then Some(|old(files)| - |files|) else None
    {
      var generations, stale := Classify(aged);
      var count, completed := CleanGenerations(generations, locked, leased, failing);
      removed := CleanStale(stale, completed, count, |old(files)|);
    }
  }

  // ---------------------------------------------------------------- the entries of a directory

  function Databases(names: set<string>): set<string> {
    set n | n in names && IsGenerationDatabaseName(BaseName(n)) :: BaseName(n)
  }

  function FilesOf(names: set<string>, database: string): set<string> {
    set n | n in names && BaseName(n) == database
  }

  function StaleOf(names: set<string>, aged: set<string>): set<string> {
    set n | n in names && IsStale(n, aged)
  }

  ghost predicate Grouped(generations: map<string, set<string>>, names: set<string>) {
    generations.Keys == Databases(names)
    && forall b :: b in generations ==> generations[b] == FilesOf(names, b)
  }

  function PathsOf(generations: map<string, set<string>>, base: string): set<string> {
    if base in generations then generations[base] else {}
  }

  /** The files left once the obsolete ones among `databases` are gone. */
  function Left(files: Files, databases: set<string>, active: string, leased: set<string>): Files {
    map n | n in files && !(BaseName(n) in databases && BaseName(n) != active && BaseName(n) !in leased) :: files[n]
  }

  lemma OneMoreGenerationFile(generations: map<string, set<string>>, seen: set<string>, name: string)
    requires Grouped(generations, seen) && IsGenerationDatabaseName(BaseName(name))
    ensures Grouped(generations[BaseName(name) := PathsOf(generations, BaseName(name)) + {name}], seen + {name})
  {
    var base := BaseName(name);
    var grown := generations[base := PathsOf(generations, base) + {name}];
    OneMoreDatabaseName(seen, name);
    assert grown.Keys == Databases(seen + {name});
    NoFilesYet(seen, base);
    assert PathsOf(generations, base) == FilesOf(seen, base);
    forall b | b in grown ensures grown[b] == FilesOf(seen + {name}, b) {
      OneMoreFileOf(seen, name);
    }
  }

  lemma OneMoreOtherFile(generations: map<string, set<string>>, seen: set<string>, name: string)
    requires Grouped(generations, seen) && !IsGenerationDatabaseName(BaseName(name))
    ensures Grouped(generations, seen + {name})
  {
    OneMoreDatabaseName(seen, name);
    OneMoreFileOf(seen, name);
  }

  lemma OneMoreDatabaseName(seen: set<string>, name: string)
    ensures var base := BaseName(name);
      Databases(seen + {name}) == Databases(seen) + if IsGenerationDatabaseName(base) then {base} else {}
  {
  }

  lemma OneMoreFileOf(seen: set<string>, name: string)
    ensures FilesOf(seen + {name}, BaseName(name)) == FilesOf(seen, BaseName(name)) + {name}
    ensures forall b :: b != BaseName(name) ==> FilesOf(seen + {name}, b) == FilesOf(seen, b)
    ensures forall b :: b in Databases(seen) ==> IsGenerationDatabaseName(b)
  {
  }

  lemma OneMoreStale(seen: set<string>, name: string, aged: set<string>)
    ensures StaleOf(seen + {name}, aged) == StaleOf(seen, aged) + if IsStale(name, aged) then {name} else {}
  {
  }

  lemma NoFilesYet(seen: set<string>, base: string)
    ensures IsGenerationDatabaseName(base) && base !in Databases(seen) ==> FilesOf(seen, base) == {}
  {
    forall n | n in FilesOf(seen, base) && IsGenerationDatabaseName(base) ensures base in Databases(seen) {
      assert n in seen && BaseName(n) == base;
    }
  }

  lemma NothingDone(files: Files, active: string, leased: set<string>)
    ensures Left(files, {}, active, leased) == files
  {
  }

  lemma OneMoreDatabase(files: Files, done: set<string>, database: string, active: string, leased: set<string>)
    ensures Left(files, done + {database}, active, leased)
         == Left(files, done, active, leased)
          - (if database != active && database !in leased then FilesOf(files.Keys, database) else {})
  {
  }

  lemma MinusTwice<V>(m: map<string, V>, first: set<string>, second: set<string>)
    ensures (m - first) - second == m - (first + second)
  {
  }

  lemma SizeWithout<V>(m: map<string, V>, name: string)
    ensures |m - {name}| == |m| - if name in m then 1 else 0
  {
    assert (m - {name}).Keys == m.Keys - {name};
    assert |m - {name}| == |(m - {name}).Keys| && |m| == |m.Keys|;
  }

  /** Done are the databases before all that are left. */
  ghost predicate InOrder(done: set<string>, rest: set<string>, databases: set<string>) {
    done + rest == databases && forall d, r :: d in done && r in rest ==> StringLt(d, r)
  }

  lemma NextInOrder(done: set<string>, rest: set<string>, databases: set<string>, least: string)
    requires InOrder(done, rest, databases) && IsLeast(least, rest)
    ensures InOrder(done + {least}, rest - {least}, databases)
  {
  }

  lemma StoppedAt(databases: set<string>, done: set<string>, rest: set<string>, database: string, active: string,
                  failing: set<string>)
    requires InOrder(done, rest, databases) && IsLeast(database, rest) && Completes(done, active, failing)
    requires database != active && database in failing
    ensures ReachedOf(databases, active, failing) == done && !Completes(databases, active, failing)
  {
    StringLeReflexive(database);
    forall d | d in rest ensures !StringLt(d, database) {
      StringLeTotal(d, database);
    }
  }

  lemma AllReached(databases: set<string>, active: string, failing: set<string>)
    requires Completes(databases, active, failing)
    ensures ReachedOf(databases, active, failing) == databases
  {
  }

  lemma IsListed(names: set<string>, m: string)
    requires m in names && IsGenerationDatabaseName(BaseName(m))
    ensures BaseName(m) in Databases(names)
  {
  }

  lemma ListedBy(names: set<string>, database: string) returns (m: string)
    requires database in Databases(names)
    ensures m in names && BaseName(m) == database && IsGenerationDatabaseName(database)
  {
    m :| m in names && IsGenerationDatabaseName(BaseName(m)) && BaseName(m) == database;
  }

  lemma StoppedUnlessComplete(files: Files, failing: set<string>)
    requires MANIFEST in files && Resolve(files).Found?
    ensures Completes(Databases(files.Keys), Resolve(files).name, failing) <==> forall m :: !Stops(files, m, failing)
  {
    var active, databases := Resolve(files).name, Databases(files.Keys);
    if f :| f in databases && f in failing && f != active {
      var m := ListedBy(files.Keys, f);
      assert Stops(files, m, failing);
    } else if m :| Stops(files, m, failing) {
      IsListed(files.Keys, m);
    }
  }

  lemma FinishesUnlessStopped(files: Files, locked: bool, failing: set<string>)
    ensures Finishes(files, locked, failing) <==> !StopsEarly(files, locked, failing)
  {
    if MANIFEST in files && Resolve(files).Found? {
      StoppedUnlessComplete(files, failing);
    }
  }

  lemma ReachedIff(files: Files, failing: set<string>, n: string)
    requires MANIFEST in files && Resolve(files).Found?
    requires n in files && IsGenerationDatabaseName(BaseName(n))
    ensures BaseName(n) in ReachedOf(Databases(files.Keys), Resolve(files).name, failing)
       <==> forall m :: Stops(files, m, failing) ==> StringLt(BaseName(n), BaseName(m))
  {
    var active, databases := Resolve(files).name, Databases(files.Keys);
    if forall m :: Stops(files, m, failing) ==> StringLt(BaseName(n), BaseName(m)) {
      forall f | f in databases && f in failing && f != active ensures StringLt(BaseName(n), f) {
        var m :| m in files && IsGenerationDatabaseName(BaseName(m)) && BaseName(m) == f;
        assert Stops(files, m, failing);
      }
    } else {
      var m :| Stops(files, m, failing) && !StringLt(BaseName(n), BaseName(m));
      assert BaseName(m) in databases;
    }
  }

  lemma CleanupRemovesIff(files: Files, after: Files, locked: bool, leased: set<string>, failing: set<string>,
                          aged: set<string>)
    requires after == CleanedFiles(files, locked, leased, failing, aged)
    ensures GoneExactly(files, after, locked, leased, failing)
  {
    forall n | n in files && IsGenerationDatabaseName(BaseName(n))
      ensures n !in after <==> GenerationGoes(files, locked, leased, failing, BaseName(n))
    {
      assert n !in StaleOf(files.Keys, aged);
      if MANIFEST in files && Resolve(files).Found? {
        ReachedIff(files, failing, n);
      }
    }
  }

  /** A staging file is not a file of a generation, so age alone decides about it. */
  lemma CleanupSparesOthers(files: Files, after: Files, locked: bool, leased: set<string>, failing: set<string>,
                            aged: set<string>)
    requires after == CleanedFiles(files, locked, leased, failing, aged)
    ensures StagingGone(files, after, Finishes(files, locked, failing), aged)
    ensures OthersStay(files, after)
  {
    var left := GenerationsLeft(files, locked, leased, failing);
    forall n | n in files && !IsGenerationDatabaseName(BaseName(n)) ensures n in left && left[n] == files[n] {
      SparedByPass(files, locked, leased, failing, n);
    }
    forall n | IsStagingName(n) ensures !IsGenerationDatabaseName(BaseName(n)) {
      StagingIsNoGeneration(n);
    }
  }

  lemma CleanupIsExact(files: Files, after: Files, removed: Option<nat>, locked: bool, leased: set<string>,
                       failing: set<string>, aged: set<string>)
    requires after == CleanedFiles(files, locked, leased, failing, aged)
    requires removed.Some? <==> Finishes(files, locked, failing)
    ensures GoneExactly(files, after, locked, leased, failing)
    ensures StagingGone(files, after, removed.Some?, aged)
    ensures OthersStay(files, after)
    ensures removed.Some? <==> !StopsEarly(files, locked, failing)
  {
    CleanupRemovesIff(files, after, locked, leased, failing, aged);
    CleanupSparesOthers(files, after, locked, leased, failing, aged);
    FinishesUnlessStopped(files, locked, failing);
  }

  lemma ReachedAreGenerations(names: set<string>, active: string, failing: set<string>, d: string)
    ensures d in ReachedOf(Databases(names), active, failing) ==> IsGenerationDatabaseName(d)
  {
  }

  lemma SparedByPass(files: Files, locked: bool, leased: set<string>, failing: set<string>, n: string)
    requires IsGenerationDatabaseName(BaseName(n)) ==> ActiveGeneration(files) in {None, Some(BaseName(n))}
    ensures var left := GenerationsLeft(files, locked, leased, failing);
      (n in files <==> n in left) && (n in files ==> left[n] == files[n])
  {
    if locked && ActiveGeneration(files).Some? {
      ReachedAreGenerations(files.Keys, ActiveGeneration(files).value, failing, BaseName(n));
    }
  }

  /** What is neither staging nor a file of a spare generation stays. */
  lemma Spared(files: Files, locked: bool, leased: set<string>, failing: set<string>, aged: set<string>, n: string)
    requires IsStagingName(n) ==> IsGenerationDatabaseName(BaseName(n))
    requires IsGenerationDatabaseName(BaseName(n)) ==> ActiveGeneration(files) in {None, Some(BaseName(n))}
    ensures var after := CleanedFiles(files, locked, leased, failing, aged);
      (n in files <==> n in after) && (n in files ==> after[n] == files[n])
  {
    SparedByPass(files, locked, leased, failing, n);
    assert n !in StaleOf(files.Keys, aged);
  }

  lemma FamilyBases(database: string)
    requires EndsWith(database, ".sqlite")
    ensures forall n :: n in FamilySet(database) ==> BaseName(n) == database
    ensures database in FamilySet(database)
  {
    BaseOfFamily(database);
    forall n | n in FamilySet(database) ensures BaseName(n) == database {
      assert n == database || n == database + "-wal" || n == database + "-shm" || n == database + "-journal";
    }
  }

  lemma NotInFamily(name: string, database: string)
    requires EndsWith(database, ".sqlite") && BaseName(name) != database
    ensures name !in FamilySet(database)
  {
    FamilyBases(database);
  }

  lemma NamesAreWell(staging: string, generation: nat)
    requires '/' !in staging && Token(staging).Some? && generation <= U64_MAX
    ensures WellNamed(PublicationOf(staging, generation)) && PublicationOf(staging, generation).staging == staging
  {
    var token := Token(staging).value;
    TokenHasNoSlash(staging);
    FinalNameIsRecognised(generation, token);
    TmpNameIsStaging(token);
  }

  lemma NamesAreApart(pub: Publication)
    requires WellNamed(pub)
    ensures pub.staging !in FamilySet(pub.final) && pub.tmp !in FamilySet(pub.final)
    ensures MANIFEST !in FamilySet(pub.final) && pub.final in FamilySet(pub.final)
    ensures pub.staging != pub.tmp && pub.tmp != MANIFEST && pub.staging != MANIFEST
  {
    TmpIsNotABuild(pub, pub.staging);
    ManifestIsApart(pub.tmp);
    ManifestIsApart(pub.staging);
    StagingIsApart(pub.tmp, pub.final);
    StagingIsApart(pub.staging, pub.final);
    StagingIsApart(MANIFEST, pub.final);
    NotInFamily(pub.tmp, pub.final);
    NotInFamily(pub.staging, pub.final);
    NotInFamily(MANIFEST, pub.final);
  }

  // ---------------------------------------------------------------- what publication and cleanup promise

  /** A publication is tried exactly for a staging database of the directory, by its name. */
  lemma AcceptsIff(files: Files, staging: string)
    ensures Accepts(files, staging) <==>
      staging in files && (forall i :: 0 <= i < |staging| ==> staging[i] != '/') && StartsWith(staging, "index-build-")
  {
    TokenIff(staging);
  }

  /** A publication that succeeds makes its database the active one, with the content that was staged. */
  lemma PublishedIsActive(files: Files, staging: string, generation: nat)
    requires Accepts(files, staging) && generation <= U64_MAX
    ensures var pub := PublicationOf(staging, generation);
      var after := PublishedFiles(files, pub);
      Resolve(after) == Found(pub.final) && after[pub.final] == files[staging] && staging !in after
      && forall n :: n !in {staging, pub.final, MANIFEST} ==>
          (n in after <==> n in files) && (n in files ==> after[n] == files[n])
  {
    var pub := PublicationOf(staging, generation);
    NamesAreWell(staging, generation);
    NamesAreApart(pub);
    ManifestEntryReadsBack(pub.final);
  }

  /** A publication that fails after its seal costs its staging database and every file of the new one, no more. */
  lemma AbandonedExactly(files: Files, staging: string, generation: nat)
    requires Accepts(files, staging) && generation <= U64_MAX
    ensures var pub := PublicationOf(staging, generation);
      var after := AbandonedFiles(files, pub);
      (forall n :: n in after <==> n in files && n != staging && BaseName(n) != pub.final)
      && forall n :: n in after ==> after[n] == files[n]
  {
    var pub := PublicationOf(staging, generation);
    NamesAreWell(staging, generation);
    FamilyBases(pub.final);
    forall n | BaseName(n) == pub.final ensures n in FamilySet(pub.final) {
    }
  }

  /** A publication that fails after its seal leaves the active database alone exactly when it had another name. */
  lemma AbandonedKeepsActiveIff(files: Files, staging: string, generation: nat)
    requires Accepts(files, staging) && generation <= U64_MAX && Resolve(files).Found?
    ensures var pub := PublicationOf(staging, generation);
      Resolve(AbandonedFiles(files, pub)) == Resolve(files)
      <==> !(MANIFEST in files && Resolve(files) == Found(pub.final))
  {
    var pub := PublicationOf(staging, generation);
    NamesAreWell(staging, generation);
    NamesAreApart(pub);
    if MANIFEST in files {
      var active := Resolve(files).name;
      BaseOfFamily(active);
      FamilyBases(pub.final);
      StagingIsApart(staging, active);
    }
  }

  /** Cleanup leaves the manifest leading where it led. */
  lemma CleanupKeepsResolve(files: Files, locked: bool, leased: set<string>, failing: set<string>, aged: set<string>)
    ensures Resolve(CleanedFiles(files, locked, leased, failing, aged)) == Resolve(files)
  {
    assert !IsStagingName(MANIFEST) by {
      if IsStagingName(MANIFEST) { ManifestIsApart(MANIFEST); }
    }
    ManifestIsNoGeneration();
    Spared(files, locked, leased, failing, aged, MANIFEST);
    if MANIFEST in files && IsIndexName(Trim(files[MANIFEST])) {
      CleanupSparesActive(files, locked, leased, failing, aged);
    }
  }

  lemma CleanupSparesActive(files: Files, locked: bool, leased: set<string>, failing: set<string>, aged: set<string>)
    requires MANIFEST in files && IsIndexName(Trim(files[MANIFEST]))
    ensures var active := Trim(files[MANIFEST]);
      active in CleanedFiles(files, locked, leased, failing, aged) <==> active in files
  {
    var active := Trim(files[MANIFEST]);
    BaseOfFamily(active);
    assert !IsStagingName(active) by {
      if IsStagingName(active) { StagingIsApart(active, active); }
    }
    Spared(files, locked, leased, failing, aged, active);
  }

  lemma ManifestIsNoGeneration()
    ensures !IsGenerationDatabaseName(BaseName(MANIFEST))
  {
    BaseIsPrefix(MANIFEST);
    assert MANIFEST[0] == 'a';
  }
}
