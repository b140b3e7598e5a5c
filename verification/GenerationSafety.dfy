/**
 Safety of the index directory over every run of publications, drop guards,
 cleanups, readers and crashes (pathing.rs 164-199, 210-262, 284-379): the active
 database and every leased one stay, and the manifest keeps resolving.
 */
module GenerationSafety {
  import opened Basics
  import opened GenerationNames
  import opened Generations

  /** The databases nobody may take away: the active one, the leased ones and the legacy one. */
  ghost predicate Guarded(s: System, database: string) {
    database == LEGACY || ActiveGeneration(s.files) == Some(database)
    || (IsIndexName(database) && Leased(s, database))
  }

  /** Every file of a guarded database is still there, with the same content. */
  ghost predicate Kept(s: System, t: System) {
    forall n :: n in s.files && Guarded(s, BaseName(n)) ==> n in t.files && t.files[n] == s.files[n]
  }

  // ---------------------------------------------------------------- the invariant

  predicate WellNamed(pub: Publication) {
    IsIndexName(pub.final) && StartsWith(pub.tmp, "active-index-") && IsStagingName(pub.tmp)
    && StartsWith(pub.staging, "index-build-")
  }

  predicate Owns(pub: Publication, name: string) { name == pub.tmp || BaseName(name) == pub.final }

  predicate Publishes(proc: Process) {
    proc.Sealing? || proc.Sealed? || proc.Writing? || proc.Written? || proc.Undoing? || proc.Published?
  }

  ghost predicate CleanerOk(s: System, proc: Process)
    requires proc.Cleaning?
  {
    (proc.locked && proc.active.Some? ==> proc.active == ActiveGeneration(s.files))
    && (proc.deleting.Some? ==>
          proc.locked && proc.active.Some? && proc.deleting != proc.active
          && IsIndexName(proc.deleting.value) && !Leased(s, proc.deleting.value))
  }

  ghost predicate ReaderOk(s: System, proc: Process)
    requires proc.Opening? || proc.Reading?
  {
    IsIndexName(proc.name) && (proc.Reading? ==> proc.name in s.files)
  }

  ghost predicate OwnsAll(pub: Publication, todo: seq<string>) {
    forall i :: 0 <= i < |todo| ==> Owns(pub, todo[i])
  }

  ghost predicate PublisherOk(s: System, proc: Process)
    requires Publishes(proc)
  {
    WellNamed(proc.pub)
    && (Unpublished(proc) ==> !Guarded(s, proc.pub.final))
    && (proc.Sealed? || proc.Writing? || proc.Written? ==> proc.pub.final in s.files)
    && (proc.Written? && proc.pub.tmp in s.files ==> s.files[proc.pub.tmp] == proc.pub.final + "\n")
    && (proc.Undoing? ==> OwnsAll(proc.pub, proc.todo))
  }

  /** What one process relies on. */
  ghost predicate ProcOk(s: System, p: nat, proc: Process) {
    (HoldsLock(proc) ==> s.lock == Some(p))
    && (proc.Cleaning? ==> CleanerOk(s, proc))
    && (proc.Opening? || proc.Reading? ==> ReaderOk(s, proc))
    && (Publishes(proc) ==> PublisherOk(s, proc))
  }

  /** The manifest resolves, every process has what it relies on, and the lock is not leaked. */
  ghost predicate Inv(s: System) {
    Resolve(s.files).Found?
    && (forall p :: p in s.procs ==> ProcOk(s, p, s.procs[p]))
    && (s.lock.Some? ==> s.lock.value in s.procs && HoldsLock(s.procs[s.lock.value]))
  }

  // ---------------------------------------------------------------- changes that do no harm

  ghost predicate Harmless(s: System, name: string) { name != MANIFEST && !Guarded(s, BaseName(name)) }

  /** The two directories agree on every name outside of `touched`. */
  ghost predicate AgreeBeside(f: Files, g: Files, touched: set<string>) {
    forall n :: n !in touched ==> (n in f <==> n in g) && (n in f ==> f[n] == g[n])
  }

  lemma HarmlessChange(s: System, t: System, touched: set<string>)
    requires Resolve(s.files).Found? && AgreeBeside(s.files, t.files, touched)
    requires forall n :: n in touched ==> Harmless(s, n)
    ensures Kept(s, t) && Resolve(t.files) == Resolve(s.files)
    ensures ActiveGeneration(t.files) == ActiveGeneration(s.files)
  {
    if MANIFEST in s.files {
      var active := Resolve(s.files).name;
      BaseOfFamily(active);
      assert Guarded(s, BaseName(active));
      assert active !in touched;
    }
  }

  lemma StagingIsHarmless(s: System, name: string)
    requires IsStagingName(name) && Resolve(s.files).Found?
    ensures Harmless(s, name)
  {
    ManifestIsApart(name);
    if Guarded(s, BaseName(name)) {
      StagingIsApart(name, BaseName(name));
    }
  }

  lemma FamilyIsHarmless(s: System, database: string, name: string)
    requires IsIndexName(database) && !Guarded(s, database) && BaseName(name) == database
    ensures Harmless(s, name)
  {
    ManifestIsApart(name);
  }

  // ---------------------------------------------------------------- the other processes

  /** Only `p` has moved. */
  ghost predicate OnlyMoves(s: System, t: System, p: nat) {
    forall q :: q in t.procs && q != p ==> q in s.procs && t.procs[q] == s.procs[q]
  }

  lemma ReadIsKept(s: System, t: System, q: nat)
    requires q in s.procs && s.procs[q].Reading? && ReaderOk(s, s.procs[q]) && Kept(s, t)
    ensures s.procs[q].name in t.files
  {
    var name := s.procs[q].name;
    assert Leases(s.procs[q], name);
    BaseOfFamily(name);
    assert Guarded(s, BaseName(name));
  }

  lemma LocklessIsFine(s: System, t: System, q: nat)
    requires q in s.procs && ProcOk(s, q, s.procs[q]) && !HoldsLock(s.procs[q]) && Kept(s, t)
    ensures ProcOk(t, q, s.procs[q])
  {
    if s.procs[q].Reading? {
      ReadIsKept(s, t, q);
    }
  }

  /** When no other process has the lock, the others only rely on what is guarded. */
  lemma OthersWithoutLock(s: System, t: System, p: nat)
    requires Inv(s) && OnlyMoves(s, t, p) && Kept(s, t) && (s.lock.None? || s.lock == Some(p))
    ensures forall q :: q in t.procs && q != p ==> ProcOk(t, q, t.procs[q])
  {
    forall q | q in t.procs && q != p ensures ProcOk(t, q, t.procs[q]) {
      assert ProcOk(s, q, s.procs[q]);
      LocklessIsFine(s, t, q);
    }
  }

  /** What a process without the lock can do to the directory: one staging file changes. */
  ghost predicate EditsStaging(f: Files, g: Files, x: string) {
    (IsStagingName(x) && g == Remove(f, x)) || (StartsWith(x, "index-build-") && x in g && g == f[x := g[x]])
  }

  ghost predicate StagingOnly(f: Files, g: Files) {
    g == f || exists x :: EditsStaging(f, g, x)
  }

  lemma StagingOnlyIsHarmless(s: System, t: System)
    requires Resolve(s.files).Found? && StagingOnly(s.files, t.files)
    ensures Kept(s, t) && Resolve(t.files) == Resolve(s.files)
    ensures ActiveGeneration(t.files) == ActiveGeneration(s.files)
  {
    if x :| EditsStaging(s.files, t.files, x) {
      StagingIsHarmless(s, x);
      HarmlessChange(s, t, {x});
    } else {
      HarmlessChange(s, t, {});
    }
  }

  lemma FinalIsNotStaging(pub: Publication, x: string)
    requires WellNamed(pub) && IsStagingName(x)
    ensures x != pub.final && pub.final != MANIFEST
  {
    BaseOfFamily(pub.final);
    StagingIsApart(x, pub.final);
    ManifestIsApart(pub.final);
  }

  lemma TmpIsNotABuild(pub: Publication, x: string)
    requires WellNamed(pub) && StartsWith(x, "index-build-")
    ensures x != pub.tmp
  {
    StartChars(x, "index-build-");
    StartChars(pub.tmp, "active-index-");
    assert x[0] == 'i' && pub.tmp[0] == 'a';
  }

  /** Neither a sealed database nor the text of a manifest staging file can change that way. */
  lemma StagingOnlyKeeps(f: Files, g: Files, pub: Publication)
    requires StagingOnly(f, g) && WellNamed(pub)
    ensures pub.final in f ==> pub.final in g
    ensures pub.tmp in g ==> pub.tmp in f && g[pub.tmp] == f[pub.tmp]
  {
    if x :| EditsStaging(f, g, x) {
      FinalIsNotStaging(pub, x);
      if StartsWith(x, "index-build-") {
        TmpIsNotABuild(pub, x);
      }
    }
  }

  lemma OthersBesideLock(s: System, t: System, p: nat)
    requires Inv(s) && OnlyMoves(s, t, p) && StagingOnly(s.files, t.files)
    requires t.lock == s.lock
    requires forall name :: Leased(t, name) ==> Leased(s, name)
    ensures forall q :: q in t.procs && q != p ==> ProcOk(t, q, t.procs[q])
  {
    StagingOnlyIsHarmless(s, t);
    forall q | q in t.procs && q != p ensures ProcOk(t, q, t.procs[q]) {
      var proc := t.procs[q];
      assert ProcOk(s, q, proc);
      if proc.Reading? {
        ReadIsKept(s, t, q);
      } else if Publishes(proc) {
        StagingOnlyKeeps(s.files, t.files, proc.pub);
      }
    }
  }

  // ---------------------------------------------------------------- every step

  /** The invariant survives and nothing guarded is lost. */
  ghost predicate Safe(s: System, t: System) { Inv(t) && Kept(s, t) }

  predicate Reads(proc: Process) { proc.Opening? || proc.Reading? }

  /** Leases only come from readers. */
  lemma LeasesShrink(s: System, t: System, p: nat)
    requires OnlyMoves(s, t, p)
    requires p in t.procs && Reads(t.procs[p]) ==> p in s.procs && Leases(s.procs[p], t.procs[p].name)
    ensures forall name :: Leased(t, name) ==> Leased(s, name)
  {
    forall name | Leased(t, name) ensures Leased(s, name) {
      var q :| q in t.procs && Leases(t.procs[q], name);
      assert q in s.procs && Leases(s.procs[q], name);
    }
  }

  /** A step of a process that has the lock, or takes it while it is free. */
  lemma LockedStep(s: System, t: System, p: nat)
    requires Inv(s) && OnlyMoves(s, t, p) && (s.lock.None? || s.lock == Some(p))
    requires Kept(s, t) && Resolve(t.files).Found?
    requires p in t.procs ==> ProcOk(t, p, t.procs[p])
    requires t.lock == if p in t.procs && HoldsLock(t.procs[p]) then Some(p) else None
    ensures Safe(s, t)
  {
    OthersWithoutLock(s, t, p);
  }

  lemma NotTheHolder(s: System, p: nat)
    requires Inv(s) && p in s.procs && !HoldsLock(s.procs[p])
    ensures s.lock != Some(p)
  {
  }

  /** A step of a process without the lock. */
  lemma UnlockedStep(s: System, t: System, p: nat)
    requires Inv(s) && OnlyMoves(s, t, p) && s.lock != Some(p) && t.lock == s.lock
    requires StagingOnly(s.files, t.files)
    requires p in t.procs && Reads(t.procs[p]) ==> p in s.procs && Leases(s.procs[p], t.procs[p].name)
    requires p in t.procs ==> ProcOk(t, p, t.procs[p])
    requires forall q :: q in s.procs && q != p ==> q in t.procs
    ensures Safe(s, t)
  {
    LeasesShrink(s, t, p);
    StagingOnlyIsHarmless(s, t);
    OthersBesideLock(s, t, p);
  }

  lemma LeaveIsSafe(s: System, p: nat)
    requires Inv(s) && p in s.procs
    ensures Safe(s, Leave(s, p))
  {
    var t := Leave(s, p);
    if s.lock == Some(p) {
      HarmlessChange(s, t, {});
      LockedStep(s, t, p);
    } else {
      UnlockedStep(s, t, p);
    }
  }

  /** A publisher's step that changes only what it may change. */
  lemma PublisherStep(s: System, t: System, p: nat, touched: set<string>)
    requires Inv(s) && p in s.procs && Publishes(s.procs[p]) && p in t.procs && Publishes(t.procs[p])
    requires OnlyMoves(s, t, p) && t.lock == s.lock && t.procs[p].pub == s.procs[p].pub
    requires AgreeBeside(s.files, t.files, touched) && forall n :: n in touched ==> Harmless(s, n)
    requires !Guarded(s, s.procs[p].pub.final)
    requires t.procs[p].Sealed? || t.procs[p].Writing? || t.procs[p].Written? ==> t.procs[p].pub.final in t.files
    requires t.procs[p].Written? && t.procs[p].pub.tmp in t.files ==>
      t.files[t.procs[p].pub.tmp] == t.procs[p].pub.final + "\n"
    requires t.procs[p].Undoing? ==> OwnsAll(t.procs[p].pub, t.procs[p].todo)
    ensures Safe(s, t)
  {
    HarmlessChange(s, t, touched);
    LeasesShrink(s, t, p);
    assert ProcOk(s, p, s.procs[p]);
    assert PublisherOk(t, t.procs[p]);
    LockedStep(s, t, p);
  }

  /** The database a seal would replace must not be the active one or a leased one. */
  ghost predicate SealIsFresh(s: System, e: Event) {
    e.Seal? && e.p in s.procs && s.procs[e.p].Sealing? ==> !Guarded(s, s.procs[e.p].pub.final)
  }

  lemma SealIsSafe(s: System, p: nat)
    requires Inv(s) && SealIsFresh(s, Seal(p))
    ensures Safe(s, AfterSeal(s, p))
  {
    if p in s.procs && s.procs[p].Sealing? {
      var pub := s.procs[p].pub;
      assert ProcOk(s, p, s.procs[p]);
      if pub.staging !in s.files {
        LeaveIsSafe(s, p);
      } else {
        SealTouches(s, pub);
        PublisherStep(s, AfterSeal(s, p), p, {pub.staging, pub.final});
      }
    }
  }

  lemma SealTouches(s: System, pub: Publication)
    requires Resolve(s.files).Found? && WellNamed(pub) && !Guarded(s, pub.final) && pub.staging in s.files
    ensures Harmless(s, pub.staging) && Harmless(s, pub.final)
    ensures AgreeBeside(s.files, Rename(s.files, pub.staging, pub.final), {pub.staging, pub.final})
  {
    StagingIsHarmless(s, pub.staging);
    BaseOfFamily(pub.final);
    FamilyIsHarmless(s, pub.final, pub.final);
  }

  /** The guard's list names only what the publication itself made. */
  lemma TodoIsOwn(s: System, p: nat)
    requires Inv(s) && p in s.procs && Unpublished(s.procs[p])
    ensures OwnsAll(s.procs[p].pub, GuardTodo(s.procs[p]))
  {
    assert ProcOk(s, p, s.procs[p]);
    var proc := s.procs[p];
    FamilyIsOwn(proc.pub);
    if proc.Sealed? {
      assert [] + Family(proc.pub.final) == Family(proc.pub.final);
    } else if !proc.Undoing? {
      OwnsBoth(proc.pub, [proc.pub.tmp], Family(proc.pub.final));
    }
  }

  lemma FamilyIsOwn(pub: Publication)
    requires WellNamed(pub)
    ensures OwnsAll(pub, Family(pub.final))
  {
    var f := pub.final;
    BaseOfFamily(f);
    OwnsFour(pub, f, f + "-wal", f + "-shm", f + "-journal");
  }

  lemma OwnsFour(pub: Publication, a: string, b: string, c: string, d: string)
    requires BaseName(a) == BaseName(b) == BaseName(c) == BaseName(d) == pub.final
    ensures OwnsAll(pub, [a, b, c, d])
  {
    assert Owns(pub, a) && Owns(pub, b) && Owns(pub, c) && Owns(pub, d);
    assert forall i :: 0 <= i < 4 ==> [a, b, c, d][i] in {a, b, c, d};
  }

  lemma OwnsBoth(pub: Publication, first: seq<string>, second: seq<string>)
    requires OwnsAll(pub, first) && OwnsAll(pub, second)
    ensures OwnsAll(pub, first + second)
  {
  }

  lemma GuardTakesOver(s: System, p: nat)
    requires Inv(s) && p in s.procs && Unpublished(s.procs[p])
    ensures Safe(s, Become(s, p, Undoing(s.procs[p].pub, GuardTodo(s.procs[p]))))
  {
    TodoIsOwn(s, p);
    assert ProcOk(s, p, s.procs[p]);
    PublisherStep(s, Become(s, p, Undoing(s.procs[p].pub, GuardTodo(s.procs[p]))), p, {});
  }

  lemma CreateTmpIsSafe(s: System, p: nat)
    requires Inv(s)
    ensures Safe(s, AfterCreateTmp(s, p))
  {
    if p in s.procs && s.procs[p].Sealed? {
      var pub := s.procs[p].pub;
      assert ProcOk(s, p, s.procs[p]);
      if pub.tmp in s.files {
        GuardTakesOver(s, p);
      } else {
        StagingIsHarmless(s, pub.tmp);
        PublisherStep(s, AfterCreateTmp(s, p), p, {pub.tmp});
      }
    }
  }

  lemma WriteTmpIsSafe(s: System, p: nat, text: string, complete: bool)
    requires Inv(s)
    ensures Safe(s, AfterWriteTmp(s, p, text, complete))
  {
    if p in s.procs && s.procs[p].Writing? {
      var pub := s.procs[p].pub;
      assert ProcOk(s, p, s.procs[p]);
      StagingIsHarmless(s, pub.tmp);
      PublisherStep(s, AfterWriteTmp(s, p, text, complete), p, {pub.tmp});
    }
  }

  lemma UndoIsSafe(s: System, p: nat, succeeds: bool)
    requires Inv(s)
    ensures Safe(s, AfterUndo(s, p, succeeds))
  {
    if p in s.procs && s.procs[p].Undoing? && s.procs[p].todo != [] {
      var pub, name := s.procs[p].pub, s.procs[p].todo[0];
      assert ProcOk(s, p, s.procs[p]) && Owns(pub, name);
      if name == pub.tmp {
        StagingIsHarmless(s, name);
      } else {
        FamilyIsHarmless(s, pub.final, name);
      }
      PublisherStep(s, AfterUndo(s, p, succeeds), p, {name});
    }
  }

  /** The manifest replacement: afterwards it names the sealed database, which exists. */
  lemma SwapResolves(s: System, p: nat)
    requires Inv(s) && p in s.procs && s.procs[p].Written? && s.procs[p].pub.tmp in s.files
    ensures var t := AfterSwap(s, p);
      Resolve(t.files) == Found(s.procs[p].pub.final) && Kept(s, t)
  {
    var pub := s.procs[p].pub;
    var t := AfterSwap(s, p);
    assert ProcOk(s, p, s.procs[p]);
    FinalIsNotStaging(pub, pub.tmp);
    ManifestEntryReadsBack(pub.final);
    forall n | n in s.files && Guarded(s, BaseName(n)) ensures n in t.files && t.files[n] == s.files[n] {
      assert n != pub.tmp by {
        StagingIsApart(pub.tmp, BaseName(n));
      }
      assert n != MANIFEST by {
        ManifestIsApart(n);
      }
    }
  }

  lemma SwapIsSafe(s: System, p: nat)
    requires Inv(s)
    ensures Safe(s, AfterSwap(s, p))
  {
    if p in s.procs && s.procs[p].Written? {
      assert ProcOk(s, p, s.procs[p]);
      if s.procs[p].pub.tmp !in s.files {
        GuardTakesOver(s, p);
      } else {
        SwapResolves(s, p);
        LockedStep(s, AfterSwap(s, p), p);
      }
    }
  }

  lemma StartPublishIsSafe(s: System, p: nat, staging: string, generation: nat)
    requires Inv(s)
    ensures Safe(s, Started(s, p, staging, generation))
  {
    var t := Started(s, p, staging, generation);
    if t != s {
      var token := Token(staging).value;
      TokenHasNoSlash(staging);
      FinalNameIsRecognised(generation, token);
      TmpNameIsStaging(token);
      HarmlessChange(s, t, {});
      LockedStep(s, t, p);
    }
  }

  lemma TokenHasNoSlash(staging: string)
    requires '/' !in staging && Token(staging).Some?
    ensures '/' !in Token(staging).value && StartsWith(staging, "index-build-")
  {
    var stem := FileStem(staging);
    assert stem == staging[..|stem|];
    assert staging[..12] == stem[..12];
  }

  lemma TmpNameIsStaging(token: string)
    ensures StartsWith(TmpName(token), "active-index-") && IsStagingName(TmpName(token))
  {
    var name := TmpName(token);
    assert name[..13] == "active-index-";
    assert name[|name| - 4..] == ".tmp";
  }

  lemma StartCleanIsSafe(s: System, p: nat, locked: bool)
    requires Inv(s)
    ensures Safe(s, AfterStartClean(s, p, locked))
  {
    var t := AfterStartClean(s, p, locked);
    if p !in s.procs && !(locked && s.lock.Some?) {
      if locked {
        HarmlessChange(s, t, {});
        LockedStep(s, t, p);
      } else {
        UnlockedStep(s, t, p);
      }
    }
  }

  /** A cleaner's step that leaves the directory alone. */
  lemma CleanerThinks(s: System, t: System, p: nat)
    requires Inv(s) && p in s.procs && s.procs[p].Cleaning? && t.files == s.files && t.lock == s.lock
    requires p in t.procs && t.procs[p].Cleaning? && t.procs[p].locked == s.procs[p].locked
    requires OnlyMoves(s, t, p) && (forall q :: q in s.procs ==> q in t.procs) && CleanerOk(t, t.procs[p])
    ensures Safe(s, t)
  {
    assert ProcOk(s, p, s.procs[p]);
    if s.procs[p].locked {
      HarmlessChange(s, t, {});
      LockedStep(s, t, p);
    } else {
      NotTheHolder(s, p);
      UnlockedStep(s, t, p);
    }
  }

  lemma ReadActiveIsSafe(s: System, p: nat)
    requires Inv(s)
    ensures Safe(s, AfterReadActive(s, p))
  {
    if p in s.procs && s.procs[p].Cleaning? && s.procs[p].deleting.None? {
      assert ProcOk(s, p, s.procs[p]);
      CleanerThinks(s, AfterReadActive(s, p), p);
    }
  }

  lemma LockGenerationIsSafe(s: System, p: nat, database: string)
    requires Inv(s)
    ensures Safe(s, AfterLockGeneration(s, p, database))
  {
    if p in s.procs && s.procs[p].Cleaning? {
      assert ProcOk(s, p, s.procs[p]);
      var t := AfterLockGeneration(s, p, database);
      LeasesShrink(s, t, p);
      CleanerThinks(s, t, p);
    }
  }

  lemma UnlockGenerationIsSafe(s: System, p: nat)
    requires Inv(s)
    ensures Safe(s, AfterUnlockGeneration(s, p))
  {
    if p in s.procs && s.procs[p].Cleaning? {
      assert ProcOk(s, p, s.procs[p]);
      CleanerThinks(s, AfterUnlockGeneration(s, p), p);
    }
  }

  /** Cleanup removes files of generations that are neither active nor leased, and nothing else. */
  lemma RemoveGenerationFileIsSafe(s: System, p: nat, path: string)
    requires Inv(s)
    ensures Safe(s, AfterRemoveGenerationFile(s, p, path))
  {
    if p in s.procs && s.procs[p].Cleaning? && s.procs[p].deleting == Some(BaseName(path)) {
      var t := AfterRemoveGenerationFile(s, p, path);
      assert ProcOk(s, p, s.procs[p]);
      LegacyIsNoGeneration();
      FamilyIsHarmless(s, BaseName(path), path);
      HarmlessChange(s, t, {path});
      LockedStep(s, t, p);
    }
  }

  lemma RemoveStaleIsSafe(s: System, p: nat, path: string)
    requires Inv(s)
    ensures Safe(s, AfterRemoveStale(s, p, path))
  {
    if p in s.procs && s.procs[p].Cleaning? && IsStagingName(path) {
      var t := AfterRemoveStale(s, p, path);
      assert ProcOk(s, p, s.procs[p]);
      assert EditsStaging(s.files, t.files, path);
      StagingOnlyIsHarmless(s, t);
      if s.procs[p].locked {
        LockedStep(s, t, p);
      } else {
        NotTheHolder(s, p);
        UnlockedStep(s, t, p);
      }
    }
  }

  lemma StartReadIsSafe(s: System, p: nat, database: string)
    requires Inv(s)
    ensures Safe(s, AfterStartRead(s, p, database))
  {
    var t := AfterStartRead(s, p, database);
    if p !in s.procs && s.lock.None? && IsGenerationDatabaseName(database) && '/' !in database {
      LockedStep(s, t, p);
    }
  }

  lemma CheckReadIsSafe(s: System, p: nat)
    requires Inv(s)
    ensures Safe(s, AfterCheckRead(s, p))
  {
    if p in s.procs && s.procs[p].Opening? {
      assert ProcOk(s, p, s.procs[p]);
      if s.procs[p].name in s.files {
        LockedStep(s, AfterCheckRead(s, p), p);
      } else {
        LeaveIsSafe(s, p);
      }
    }
  }

  lemma BuildIsSafe(s: System, staging: string, text: string)
    requires Inv(s) && StartsWith(staging, "index-build-")
    ensures Safe(s, s.(files := s.files[staging := text]))
  {
    var t := s.(files := s.files[staging := text]);
    assert EditsStaging(s.files, t.files, staging);
    StagingOnlyIsHarmless(s, t);
    OthersBesideLock(s, t, 0);
    OthersBesideLock(s, t, 1);
  }

  /**
   Every step of every process, crashes included, keeps the invariant and every file of the
   active, the leased and the legacy database, as long as a seal does not replace one
   of them.
   */
  lemma StepIsSafe(s: System, e: Event)
    requires Inv(s) && SealIsFresh(s, e)
    ensures Safe(s, Step(s, e))
  {
    match e
    case Build(staging, text) =>
      if StartsWith(staging, "index-build-") && '/' !in staging {
        BuildIsSafe(s, staging, text);
      }
    case StartPublish(p, staging, generation) => StartPublishIsSafe(s, p, staging, generation);
    case Seal(p) => SealIsSafe(s, p);
    case CreateTmp(p) => CreateTmpIsSafe(s, p);
    case WriteTmp(p, text, complete) => WriteTmpIsSafe(s, p, text, complete);
    case Swap(p) => SwapIsSafe(s, p);
    case Fail(p) =>
      if p in s.procs && s.procs[p].Sealing? {
        LeaveIsSafe(s, p);
      } else if p in s.procs && Unpublished(s.procs[p]) && !s.procs[p].Undoing? {
        GuardTakesOver(s, p);
      }
    case Undo(p, succeeds) => UndoIsSafe(s, p, succeeds);
    case StartClean(p, locked) => StartCleanIsSafe(s, p, locked);
    case ReadActive(p) => ReadActiveIsSafe(s, p);
    case LockGeneration(p, database) => LockGenerationIsSafe(s, p, database);
    case RemoveGenerationFile(p, path) => RemoveGenerationFileIsSafe(s, p, path);
    case UnlockGeneration(p) => UnlockGenerationIsSafe(s, p);
    case RemoveStale(p, path) => RemoveStaleIsSafe(s, p, path);
    case StartRead(p, database) => StartReadIsSafe(s, p, database);
    case CheckRead(p) => CheckReadIsSafe(s, p);
    case _ => DepartureIsSafe(s, e);
  }

  lemma DepartureIsSafe(s: System, e: Event)
    requires Inv(s) && (e.EndPublish? || e.EndClean? || e.EndRead? || e.Crash?)
    ensures Safe(s, Step(s, e))
  {
    if e.p in s.procs {
      LeaveIsSafe(s, e.p);
    }
  }

  // ---------------------------------------------------------------- whole runs

  /** Every seal of the run, when it happens, replaces neither the active nor a leased database. */
  ghost predicate FreshSeals(s: System, events: seq<Event>)
    decreases |events|
  {
    events == [] || (SealIsFresh(s, events[0]) && FreshSeals(Step(s, events[0]), events[1..]))
  }

  /** A directory nobody uses yet, whose manifest is valid or absent. */
  predicate AtRest(s: System) { Resolve(s.files).Found? && s.lock.None? && s.procs == map[] }

  lemma {:induction false} RunIsSafe(s: System, events: seq<Event>)
    requires Inv(s) && FreshSeals(s, events)
    ensures Inv(Run(s, events))
    decreases |events|
  {
    if events != [] {
      StepIsSafe(s, events[0]);
      RunIsSafe(Step(s, events[0]), events[1..]);
    }
  }

  /** The generation a step swaps in, if it does. */
  function SwappedBy(s: System, e: Event): Option<string> {
    if e.Swap? && e.p in s.procs && s.procs[e.p].Written? && s.procs[e.p].pub.tmp in s.files
    then Some(s.procs[e.p].pub.final)
    else None
  }

  /** The last generation swapped in during the run, else `initial`. */
  ghost function LastSwapped(s: System, events: seq<Event>, initial: string): string
    decreases |events|
  {
    if events == [] then initial
    else
      var swapped := SwappedBy(s, events[0]);
      LastSwapped(Step(s, events[0]), events[1..], if swapped.Some? then swapped.value else initial)
  }

  /** No step but a swap changes where the manifest leads. */
  lemma OnlySwapsRedirect(s: System, e: Event)
    requires Inv(s) && SealIsFresh(s, e)
    ensures Resolve(Step(s, e).files)
         == if SwappedBy(s, e).Some? then Found(SwappedBy(s, e).value) else Resolve(s.files)
  {
    if SwappedBy(s, e).Some? {
      SwapResolves(s, e.p);
    } else {
      StepIsSafe(s, e);
      StepKeepsManifest(s, e);
    }
  }

  lemma StepKeepsManifest(s: System, e: Event)
    requires Inv(s) && SwappedBy(s, e).None?
    ensures MANIFEST in s.files <==> MANIFEST in Step(s, e).files
    ensures MANIFEST in s.files ==> Step(s, e).files[MANIFEST] == s.files[MANIFEST]
  {
    assert !IsStagingName(MANIFEST) by {
      if IsStagingName(MANIFEST) { ManifestIsApart(MANIFEST); }
    }
    if e.Build? {
    } else if e.Seal? || e.CreateTmp? || e.WriteTmp? || e.Undo? {
      PublisherKeepsManifest(s, e);
    } else if e.RemoveGenerationFile? && e.p in s.procs {
      assert ProcOk(s, e.p, s.procs[e.p]);
      if s.procs[e.p].Cleaning? && s.procs[e.p].deleting == Some(BaseName(e.path)) {
        ManifestIsApart(e.path);
      }
    }
  }

  lemma PublisherKeepsManifest(s: System, e: Event)
    requires Inv(s) && (e.Seal? || e.CreateTmp? || e.WriteTmp? || e.Undo?)
    ensures MANIFEST in s.files <==> MANIFEST in Step(s, e).files
    ensures MANIFEST in s.files ==> Step(s, e).files[MANIFEST] == s.files[MANIFEST]
  {
    if e.p in s.procs && Publishes(s.procs[e.p]) {
      var pub := s.procs[e.p].pub;
      assert ProcOk(s, e.p, s.procs[e.p]);
      FinalIsNotStaging(pub, pub.tmp);
      ManifestIsApart(pub.tmp);
      ManifestIsApart(pub.staging);
      if e.Undo? && s.procs[e.p].Undoing? && s.procs[e.p].todo != [] {
        assert Owns(pub, s.procs[e.p].todo[0]);
        if s.procs[e.p].todo[0] != pub.tmp {
          ManifestIsApart(s.procs[e.p].todo[0]);
        }
      }
    }
  }

  lemma {:induction false} RunResolves(s: System, events: seq<Event>, initial: string)
    requires Inv(s) && FreshSeals(s, events) && Resolve(s.files) == Found(initial)
    ensures Resolve(Run(s, events).files) == Found(LastSwapped(s, events, initial))
    decreases |events|
  {
    if events != [] {
      var swapped := SwappedBy(s, events[0]);
      StepIsSafe(s, events[0]);
      OnlySwapsRedirect(s, events[0]);
      RunResolves(Step(s, events[0]), events[1..], if swapped.Some? then swapped.value else initial);
    }
  }

  /** The names a step can add: a build, a manifest staging file, the manifest, or the target of a seal. */
  lemma WhatAppears(s: System, e: Event, name: string)
    requires name !in s.files && name in Step(s, e).files
    ensures (e.Build? && name == e.staging && StartsWith(name, "index-build-"))
      || ((e.CreateTmp? || e.WriteTmp? || e.Swap? || e.Seal?) && e.p in s.procs && Publishes(s.procs[e.p])
          && (name == s.procs[e.p].pub.tmp || name == MANIFEST
              || (e.Seal? && s.procs[e.p].Sealing? && name == s.procs[e.p].pub.final)))
  {
  }

  /** Nothing but a seal puts a generation database into the directory. */
  lemma OnlySealsCreate(s: System, e: Event, name: string)
    requires Inv(s) && (IsIndexName(name) || name == LEGACY) && name !in s.files && name in Step(s, e).files
    ensures e.Seal? && e.p in s.procs && s.procs[e.p].Sealing? && s.procs[e.p].pub.final == name
  {
    BaseOfFamily(name);
    WhatAppears(s, e, name);
    if IsStagingName(name) || name == MANIFEST {
      StagingIsApart(name, name);
    } else if !e.Build? {
      assert ProcOk(s, e.p, s.procs[e.p]);
    }
  }

  /** The legacy database is neither made nor taken away. */
  lemma StepKeepsLegacy(s: System, e: Event)
    requires Inv(s) && SealIsFresh(s, e)
    ensures LEGACY in s.files <==> LEGACY in Step(s, e).files
  {
    StepIsSafe(s, e);
    BaseOfFamily(LEGACY);
    LegacyIsNoGeneration();
    assert forall p :: p in s.procs ==> ProcOk(s, p, s.procs[p]);
    if LEGACY !in s.files && LEGACY in Step(s, e).files {
      OnlySealsCreate(s, e, LEGACY);
    }
  }

  lemma {:induction false} RunKeepsLegacy(s: System, events: seq<Event>)
    requires Inv(s) && FreshSeals(s, events)
    ensures LEGACY in s.files <==> LEGACY in Run(s, events).files
    decreases |events|
  {
    if events != [] {
      StepIsSafe(s, events[0]);
      StepKeepsLegacy(s, events[0]);
      RunKeepsLegacy(Step(s, events[0]), events[1..]);
    }
  }

  /**
   Safety of publication: in every interleaving of builds, publications, drop guards,
   cleanups, readers and crashes, the directory resolves to the last generation swapped
   in; that database exists exactly when there is a manifest or there was a legacy
   database from the start; and every database under a reader's lease exists.
   */
  lemma ActiveIsTheLastSwapped(s: System, events: seq<Event>)
    requires AtRest(s) && FreshSeals(s, events)
    ensures var t := Run(s, events);
      var active := LastSwapped(s, events, Resolve(s.files).name);
      Resolve(t.files) == Found(active)
      && (active in t.files <==> MANIFEST in t.files || LEGACY in s.files)
      && forall p :: p in t.procs && t.procs[p].Reading? ==> t.procs[p].name in t.files
  {
    RunIsSafe(s, events);
    RunResolves(s, events, Resolve(s.files).name);
    RunKeepsLegacy(s, events);
    var t := Run(s, events);
    assert forall p :: p in t.procs ==> ProcOk(t, p, t.procs[p]);
  }

  /** In an empty directory the resolver names a database that is not there. */
  lemma EmptyDirectoryResolves()
    ensures var s := System(map[], None, map[]);
      AtRest(s) && Resolve(s.files) == Found(LEGACY) && LEGACY !in s.files
  {
  }

  // ---------------------------------------------------------------- distinct publications

  predicate Plans(e: Event) {
    e.StartPublish? && '/' !in e.staging && Token(e.staging).Some? && e.generation <= U64_MAX
  }

  /** The database name a publication will choose. */
  function PlannedName(e: Event): (r: Option<string>)
    ensures r.Some? ==> IsIndexName(r.value)
  {
    if Plans(e) then
      TokenHasNoSlash(e.staging);
      FinalNameIsRecognised(e.generation, Token(e.staging).value);
      Some(FinalName(e.generation, Token(e.staging).value))
    else None
  }

  predicate SamePlan(e: Event, f: Event)
    requires Plans(e) && Plans(f)
  {
    e.generation == f.generation && Token(e.staging) == Token(f.staging)
  }

  /** No two publications share generation and build token. */
  predicate DistinctPublications(events: seq<Event>) {
    forall i, j :: 0 <= i < j < |events| && Plans(events[i]) && Plans(events[j]) ==> !SamePlan(events[i], events[j])
  }

  predicate Unused(files: Files, events: seq<Event>) {
    forall i :: 0 <= i < |events| && PlannedName(events[i]).Some? ==> PlannedName(events[i]).value !in files
  }

  /** Names planned are still free, and so is the target of whoever is about to seal. */
  ghost predicate NamesAreFree(s: System, events: seq<Event>) {
    Unused(s.files, events)
    && (forall p, i :: p in s.procs && Publishes(s.procs[p]) && 0 <= i < |events| ==>
          PlannedName(events[i]) != Some(s.procs[p].pub.final))
    && (forall p :: p in s.procs && s.procs[p].Sealing? ==> s.procs[p].pub.final !in s.files)
  }

  /** A seal to a name that is not in the directory replaces nothing. */
  lemma FreeIsFresh(s: System, e: Event)
    requires Inv(s) && (e.Seal? && e.p in s.procs && s.procs[e.p].Sealing? ==> s.procs[e.p].pub.final !in s.files)
    ensures SealIsFresh(s, e)
  {
    if e.Seal? && e.p in s.procs && s.procs[e.p].Sealing? && Guarded(s, s.procs[e.p].pub.final) {
      GuardedExists(s, e.p);
    }
  }

  /** A publication in progress was in progress before, for the same name, or has just started. */
  lemma WhoPublishes(s: System, e: Event, q: nat)
    requires q in Step(s, e).procs && Publishes(Step(s, e).procs[q])
    ensures var t := Step(s, e);
      if q in s.procs then
        Publishes(s.procs[q]) && t.procs[q].pub == s.procs[q].pub
        && (t.procs[q].Sealing? ==> s.procs[q].Sealing? && e != Seal(q))
      else
        e.StartPublish? && PlannedName(e) == Some(t.procs[q].pub.final) && t.files == s.files
  {
  }

  lemma StepKeepsNamesFree(s: System, events: seq<Event>)
    requires Inv(s) && events != [] && DistinctPublications(events) && NamesAreFree(s, events)
    ensures NamesAreFree(Step(s, events[0]), events[1..])
  {
    var e, t := events[0], Step(s, events[0]);
    forall i | 0 <= i < |events[1..]| && PlannedName(events[1..][i]).Some?
      ensures PlannedName(events[1..][i]).value !in t.files
    {
      assert events[1..][i] == events[i + 1];
      PlannedStaysFree(s, e, PlannedName(events[i + 1]).value);
    }
    forall p, i | p in t.procs && Publishes(t.procs[p]) && 0 <= i < |events[1..]|
      ensures PlannedName(events[1..][i]) != Some(t.procs[p].pub.final)
    {
      WhoPublishes(s, e, p);
      if p !in s.procs {
        PlansDiffer(e, events[i + 1]);
      } else {
        assert PlannedName(events[i + 1]) != Some(s.procs[p].pub.final);
      }
    }
    forall p | p in t.procs && t.procs[p].Sealing? ensures t.procs[p].pub.final !in t.files {
      WhoPublishes(s, e, p);
      if p in s.procs {
        TargetStaysFree(s, e, p);
      } else {
        assert PlannedName(events[0]) == Some(t.procs[p].pub.final);
      }
    }
  }

  lemma PlansDiffer(e: Event, f: Event)
    requires Plans(e) && (Plans(f) ==> !SamePlan(e, f))
    ensures PlannedName(e) != PlannedName(f)
  {
    if PlannedName(f) == PlannedName(e) {
      FinalNameIsInjective(e.generation, Token(e.staging).value, f.generation, Token(f.staging).value);
    }
  }

  lemma PlannedStaysFree(s: System, e: Event, name: string)
    requires Inv(s) && IsIndexName(name) && name !in s.files
    requires forall p :: p in s.procs && Publishes(s.procs[p]) ==> s.procs[p].pub.final != name
    ensures name !in Step(s, e).files
  {
    if name in Step(s, e).files {
      OnlySealsCreate(s, e, name);
    }
  }

  lemma TargetStaysFree(s: System, e: Event, p: nat)
    requires Inv(s) && p in s.procs && s.procs[p].Sealing? && s.procs[p].pub.final !in s.files && e != Seal(p)
    ensures s.procs[p].pub.final !in Step(s, e).files
  {
    assert forall q :: q in s.procs ==> ProcOk(s, q, s.procs[q]);
    if s.procs[p].pub.final in Step(s, e).files {
      OnlySealsCreate(s, e, s.procs[p].pub.final);
    }
  }

  lemma {:induction false} FreeNamesMakeFreshSeals(s: System, events: seq<Event>)
    requires Inv(s) && DistinctPublications(events) && NamesAreFree(s, events)
    ensures FreshSeals(s, events)
    decreases |events|
  {
    if events != [] {
      FreeIsFresh(s, events[0]);
      StepIsSafe(s, events[0]);
      StepKeepsNamesFree(s, events);
      FreeNamesMakeFreshSeals(Step(s, events[0]), events[1..]);
    }
  }

  /**
   What the code relies on suffices: when no two publications of the run share generation
   and build token, and none of their names is in the directory at the start, no seal ever
   replaces an active or a leased database.
   */
  lemma DistinctNamesMakeFreshSeals(s: System, events: seq<Event>)
    requires AtRest(s) && DistinctPublications(events) && Unused(s.files, events)
    ensures FreshSeals(s, events)
  {
    FreeNamesMakeFreshSeals(s, events);
  }

  /** No step of such a run takes away or rewrites a file of the active, a leased or the legacy database. */
  lemma NothingGuardedIsLost(s: System, events: seq<Event>, e: Event)
    requires AtRest(s) && FreshSeals(s, events) && SealIsFresh(Run(s, events), e)
    ensures Kept(Run(s, events), Step(Run(s, events), e))
  {
    RunIsSafe(s, events);
    StepIsSafe(Run(s, events), e);
  }

  // ---------------------------------------------------------------- a seal over a guarded database

  /** The sealed publication fails before its manifest staging exists, and its guard cleans up. */
  function FailedPublication(p: nat): seq<Event> { [Seal(p), Fail(p), Undo(p, true)] }

  /** Each step of the run keeps every file that is guarded when it is taken. */
  ghost predicate AlwaysKept(s: System, events: seq<Event>)
    decreases |events|
  {
    events == [] || (Kept(s, Step(s, events[0])) && AlwaysKept(Step(s, events[0]), events[1..]))
  }

  predicate NoSeals(events: seq<Event>) {
    forall i :: 0 <= i < |events| ==> !events[i].Seal?
  }

  lemma {:induction false} KeptWithoutSeals(s: System, events: seq<Event>)
    requires Inv(s) && NoSeals(events)
    ensures AlwaysKept(s, events)
    decreases |events|
  {
    if events != [] {
      assert !events[0].Seal?;
      StepIsSafe(s, events[0]);
      KeptWithoutSeals(Step(s, events[0]), events[1..]);
    }
  }

  lemma GuardedExists(s: System, p: nat)
    requires Inv(s) && p in s.procs && s.procs[p].Sealing? && Guarded(s, s.procs[p].pub.final)
    ensures s.procs[p].pub.final in s.files
    ensures ActiveGeneration(s.files) == Some(s.procs[p].pub.final) || Leased(s, s.procs[p].pub.final)
  {
    var final := s.procs[p].pub.final;
    assert ProcOk(s, p, s.procs[p]);
    LegacyIsNoGeneration();
    if q :| q in s.procs && Leases(s.procs[q], final) {
      assert ProcOk(s, q, s.procs[q]);
    }
  }

  /** If no step of a failed publication loses a guarded file, then its target was not guarded. */
  lemma FailureLosesIt(s: System, p: nat)
    requires Inv(s) && p in s.procs && s.procs[p].Sealing? && s.procs[p].pub.staging in s.files
    requires Guarded(s, s.procs[p].pub.final)
    ensures !AlwaysKept(s, FailedPublication(p))
  {
    var pub := s.procs[p].pub;
    var b := Step(Step(s, Seal(p)), Fail(p));
    assert ProcOk(s, p, s.procs[p]);
    GuardedExists(s, p);
    FailedSteps(s, p);
    StillGuarded(s, p);
    BaseOfFamily(pub.final);
    assert pub.final in b.files && pub.final !in Step(b, Undo(p, true)).files;
    LostAtTheThird(s, Seal(p), Fail(p), Undo(p, true));
  }

  lemma LostAtTheThird(s: System, e0: Event, e1: Event, e2: Event)
    requires var b := Step(Step(s, e0), e1); !Kept(b, Step(b, e2))
    ensures !AlwaysKept(s, [e0, e1, e2])
  {
    var a := Step(s, e0);
    var b := Step(a, e1);
    assert [e0, e1, e2][1..] == [e1, e2] && [e1, e2][1..] == [e2];
    assert !AlwaysKept(b, [e2]);
    assert !AlwaysKept(a, [e1, e2]);
  }

  lemma FailedSteps(s: System, p: nat)
    requires p in s.procs && s.procs[p].Sealing? && s.procs[p].pub.staging in s.files
    ensures var pub := s.procs[p].pub;
      var b := Step(Step(s, Seal(p)), Fail(p));
      b.files == Rename(s.files, pub.staging, pub.final)
      && b.procs == s.procs[p := Undoing(pub, Family(pub.final))]
      && Step(b, Undo(p, true)).files == b.files - {pub.final}
  {
    var pub := s.procs[p].pub;
    var a := Step(s, Seal(p));
    assert a.procs[p] == Sealed(pub);
    assert [] + Family(pub.final) == Family(pub.final);
  }

  lemma StillGuarded(s: System, p: nat)
    requires Inv(s) && p in s.procs && s.procs[p].Sealing? && s.procs[p].pub.staging in s.files
    requires Guarded(s, s.procs[p].pub.final)
    ensures Guarded(Step(Step(s, Seal(p)), Fail(p)), s.procs[p].pub.final)
  {
    var pub := s.procs[p].pub;
    var b := Step(Step(s, Seal(p)), Fail(p));
    assert ProcOk(s, p, s.procs[p]);
    FailedSteps(s, p);
    GuardedExists(s, p);
    FinalIsNotStaging(pub, pub.staging);
    ManifestIsApart(pub.staging);
    if q :| q in s.procs && Leases(s.procs[q], pub.final) {
      assert q in b.procs && Leases(b.procs[q], pub.final);
    }
  }

  /**
   The condition on seals is exact. In a directory that is in order, a seal and whatever
   follows it up to the next seal keeps every guarded file if and only if its target is
   neither active nor leased; otherwise one I/O error is enough to lose that database.
   */
  lemma SealIsSafeIff(s: System, p: nat)
    requires Inv(s) && p in s.procs && s.procs[p].Sealing? && s.procs[p].pub.staging in s.files
    ensures (forall events: seq<Event> :: NoSeals(events) ==> AlwaysKept(s, [Seal(p)] + events))
       <==> !Guarded(s, s.procs[p].pub.final)
  {
    if Guarded(s, s.procs[p].pub.final) {
      var rest := [Fail(p), Undo(p, true)];
      assert FailedPublication(p) == [Seal(p)] + rest && NoSeals(rest);
      FailureLosesIt(s, p);
    } else {
      forall events: seq<Event> | NoSeals(events) ensures AlwaysKept(s, [Seal(p)] + events) {
        var all := [Seal(p)] + events;
        assert all[0] == Seal(p) && all[1..] == events;
        StepIsSafe(s, Seal(p));
        KeptWithoutSeals(Step(s, Seal(p)), events);
      }
    }
  }
}
