# FossilSense: a verified model

A Dafny model of the parts of FossilSense that are hardest to get right by reading one
function: the admission of index builds, the publication and cleanup of index
generations, the file catalogue and the bounded reference search over it, the C-family
lexical map, the call-relation index and its budget, the snapshot of unsaved files, the
workspace scope filter, and the completion accept log.

`dafny verify dfyconfig.toml` checks everything.

## How it is organised

| module | source | what it models |
|---|---|---|
| `Basics`, `Ordering` | | optional values, saturating arithmetic, string affixes; byte order, sort keys, the stable sort |
| `Admission`, `Coordinator`, `CoordinatorRuns` | build_coordinator.rs | the coordinator state and its critical sections as steps; the class that performs them in place; all interleavings of them |
| `Permits`, `Fairness`, `BackOff`, `Signals`, `Ledger`, `LedgerRuns`, `ScopeRuns`, `Compactions` | build_coordinator.rs | permit lifetime, starvation bound, back-off, tokens and queue step by step, reservations, ledger over runs, scopes as runs, compaction protocol |
| `GenerationNames`, `Generations`, `GenerationSafety`, `IndexDirectory`, `DirectoryRuns` | pathing.rs, pathing/leases.rs, store/generation_lease.rs | file names; publication, drop guard, cleanup and readers as interleaved file operations; safety; the sequential code in place; that code as runs |
| `FileList`, `ReferenceSearch`, `ReferenceHits`, `ReferenceCache` | indexed_files.rs, references.rs | the segmented catalogue, the chunked search, what it finds, the two caches |
| `Lexical`, `LexicalFacts`, `CppLiterals`, `CppDirectives` | c_lexical.rs | the jump-ahead scanner against byte-by-byte automata of its own rules; where each construct ends, on the bytes alone; those rules for literals and for directives against the C++ standard |
| `Calls`, `Relations`, `CandidateFacts`, `RelationIndex`, `CallService` | call_catalog.rs, call_model.rs, call_service.rs | resolution of one call, conservation, what a call may mean, the built index, the bounds around it |
| `Overlay`, `OverlayFacts`, `PrefixLookup` | candidate_service.rs | the overlay snapshot, what it files where, and the bounded prefix lookup |
| `Scope`, `ScopeFacts` | config.rs | scope filter, matchers and the pruned walk; the verdicts told from configuration and path |
| `History` | completion_history.rs | the accept log and the hexadecimal keys |

Code that updates state in place is a class or a method with loops whose contract ties the
new state to a specification function; the properties are lemmas about that function, or
about all runs made of such steps.

## What the model assumes

- Tickets, epochs and compaction tokens do not wrap. Clocks and memory samples are arbitrary inputs; a waiting build keeps polling until it has an answer.
- In the runs a build may queue at any time: the back-off is read in an earlier critical section, so one that is set in between does not stop it. What a caller reads there is the subject of `BackOff`.
- A cancellation token is a number and the raised flags are a set. Reference counts of permits are counted as the language runtime counts them.
- The family lock of an index directory excludes other holders and is freed by a crash; a reader's lease is taken under it and excludes deletion of that generation. Directories hold plain files, and rename replaces atomically.
- `Generations` lets any staging file be stale at any time and lets a cleaner see any set of names, so its safety does not depend on time stamps or on the order of a directory scan.
- Matches of the line scanner come in line and column order (`ReferenceSearch.ScanOrdered`); file contents, roles and languages are given.
- Grouping of anchors into entities is an input of which only this is used: groups are non-empty, have one name each, and use no anchor twice.
- Glob matching and group-key hashing are parameters.

## What the model found

- The bound on grants to others while a build waits is 2p + 1 for position p, and it is reached for every p.
- With the process target set to the largest 64-bit number, saturation makes every reservation pass (`Ledger.LargestTargetNeverRefuses`); below it the saturating sum is exact.
- Scopes closed in the order they opened restore the ledger only if the second one found it as the first did (`ScopeRuns.CrossedScopesRestoreIff`); a short run loses ten bytes (`ScopeRuns.CrossedScopesLoseBytes`).
- The back-off has one entry per root, so a time-out of one kind of build lifts that of another kind (`BackOff.OtherKindEndsIt`); a kind stays held off exactly until one of four kinds of step (`BackOff.StepEndsIff`, `BackOff.HeldThroughoutIff`).
- A cancelled build can still reserve: the token is looked at before the memory is sampled and the lock taken (`LedgerRuns.CancelledBuildReserves`).
- Removing a workspace root while its compaction worker runs allows a second worker for that root (`Compactions.RemovalBreaksIt`). That is exactly when the protocol fails: otherwise, and during shutdown, a root keeps one worker and loses no request (`Compactions.RemovalIsSafeIff`).
- Publication is safe as long as a seal does not replace the active or a leased database. The code relies on build tokens (process id and time) and generation numbers for that; distinct pairs suffice (`GenerationSafety.DistinctNamesMakeFreshSeals`), and if a guarded name did repeat, one I/O error afterwards would let the drop guard delete that database (`GenerationSafety.SealIsSafeIff`).
- Without a manifest the resolver returns the legacy name without looking whether it exists (`GenerationSafety.EmptyDirectoryResolves`), and cleanup removes no generation. When the lease of one generation cannot be asked for, cleanup leaves all later ones and the stale staging files.
- On literals of C++ text the scanner departs from ISO/IEC 14882:2020 in three ways: an `R` before a quote that ends an identifier or a number opens a raw string (`CppLiterals.TailOfAnIdentifier`), a digit separator opens a character literal (`CppLiterals.DigitSeparator`), and a raw-string delimiter may hold bytes the standard does not admit, such as the vertical tab (`CppLiterals.VerticalTabDelimiter`). Otherwise the two are in the same mode everywhere (`CppLiterals.AgreesIff`).
- On directives it departs in C and in C++, because it looks at physical lines without their comments: a `#` inside a comment (`CppDirectives.HashInComment`) or on the second half of a spliced line (`CppDirectives.HashBehindSplice`) starts one, a `#` behind a comment does not (`CppDirectives.HashBehindComment`), a newline inside a comment ends one (`CppDirectives.CommentInDirective`), and a backslash before trailing white space continues one. Otherwise the finished map is right about every byte that is not white space (`CppDirectives.MapAgreesIff`, `CppDirectives.MapIsRight`).
- The expansion bound depends on the deduplication by path, fingerprint and start byte, which is coarser than the identity grouping uses (`CallService.DuplicatesBreakTheBound`).
- The snapshot's sorted indexes are independent of the order of the open files, given that anchors carry their own file's path. Its fallback completions are not sorted, and depend on that order exactly when two files have some (`Overlay.FallbacksAreOrderFreeIff`); so does the declaration kept under a fingerprint that two files declare (`Overlay.FingerprintsAreOrderFreeIff`).
- A glob exclude that matches a directory prunes files the scope check would accept (`Scope.ExcludeGlobsMayCostFiles`).
- Clearing one workspace from the accept log does not bring back evicted events of others (`History.ClearWorkspaceExact`).

## Model

| member | source | states |
|---|---|---|
| `Fairness.AtMostTwicePerBuildAhead` | crates/fossilsense/src/build_coordinator.rs:527-579 | Starvation bound over every run: while a build that stood at queue position p still waits, the slot went to others at most 2p times, plus once if the head had the slot last; whatever arrives behind or leaves ahead |
| `Fairness.BoundIsTight` | crates/fossilsense/src/build_coordinator.rs:774-781 | For every number of builds ahead there is a run from the empty coordinator that reaches exactly 2n + 1 grants to others |
| `Fairness.PatienceSpentIsNext` | crates/fossilsense/src/build_coordinator.rs:726-754 | Once a waiting build has seen as many grants as the bound allows, the next grant of any event is to it |
| `Fairness.SelectedGetsAnAnswer` | crates/fossilsense/src/build_coordinator.rs:530-560 | With the slot free and a queue, the selected build is granted when it polls exactly if nothing is shut down or cancelled, and is never told to wait on |
| `Admission.NextWaiterIsFair` | crates/fossilsense/src/build_coordinator.rs:774-781 | The selection rule: the oldest build of another root than the last one granted, the head only when every waiting build has that root, none exactly for an empty queue |
| `Permits.ActiveIffHeld` | crates/fossilsense/src/build_coordinator.rs:253-270 | In every run a build is active exactly while some clone or lease of its permit lives; all live ones carry its ticket, root and token; the reference count is their number |
| `Permits.NeverStale` | crates/fossilsense/src/build_coordinator.rs:896-917 | A live permit is never told it is stale, whatever it reserves |
| `Permits.FreedByTheLastDrop` | crates/fossilsense/src/build_coordinator.rs:756-767 | The slot becomes free only when the last remaining share is dropped |
| `Permits.ReleasedExactlyOnce` | crates/fossilsense/src/build_coordinator.rs:726-767 | The granted tickets in order are the released tickets in order followed by the active one: one release per grant, no overlap; no ticket is granted twice |
| `Signals.CancelledExactly` | crates/fossilsense/src/build_coordinator.rs:452-472 | For every event of every run: a token is up afterwards if and only if it was before or the event raises it, which is a foreground build against an active compaction, an explicit cancellation, shutdown for active, waiting and compacting work, the removal of a root for its active build and compaction, or a newer compaction request for the one in flight |
| `Signals.ForegroundComesFirst` | crates/fossilsense/src/build_coordinator.rs:451-523 | From the moment a build of any kind but name compaction is asked for or queues while a name compaction is active, the token of that compaction is up in every continuation, and as long as it keeps the slot each of its reservations that looks at the token is refused as cancelled and changes nothing |
| `Signals.OthersAreLeftToRun` | crates/fossilsense/src/build_coordinator.rs:452-472 | A name compaction, or a build that finds none active, raises no token and counts no cancellation |
| `Signals.CancellationsExactly` | crates/fossilsense/src/build_coordinator.rs:452-472 | A cancellation is counted exactly for a compaction told to stop for the first time and for a wait that ends cancelled |
| `Signals.QueueExactly` | crates/fossilsense/src/build_coordinator.rs:496-579 | In every run the queue ascends by ticket; each event adds exactly the accepted build with its root, kind and token, and takes out exactly the build that hears an answer, times out, or lost its root |
| `Signals.PollHears` | crates/fossilsense/src/build_coordinator.rs:527-560 | What a poll answers: shutting down, cancelled, or a grant exactly for the next build in line with a free slot, whose root, kind and token permit and slot carry |
| `Signals.ShutdownIsFinal` | crates/fossilsense/src/build_coordinator.rs:618-634 | After a shutdown nothing is granted and nothing queues, whatever follows |
| `Ledger.PressureIsExact` | crates/fossilsense/src/build_coordinator.rs:924-931 | The saturating pressure sum decides like the true sum while the target is below the largest number, and never refuses at the largest target |
| `Ledger.LargestTargetNeverRefuses` | crates/fossilsense/src/build_coordinator.rs:924-931 | A concrete overrun that is accepted when the target is the largest 64-bit number |
| `Ledger.ReserveFacts` | crates/fossilsense/src/build_coordinator.rs:896-962 | A reservation is accepted exactly when the permit is live, its token was not raised when the call looked at it before sampling and locking, the estimate fits the temporary budget and the true sum fits the target; what it changes in either case |
| `Ledger.NegotiateIsNearlyMaximal` | crates/fossilsense/src/build_coordinator.rs:825-858 | From any attempt on, the retry loop ends within 4 MiB of the largest admissible size or finds the minimum inadmissible |
| `Ledger.NegotiatedSize` | crates/fossilsense/src/build_coordinator.rs:825-858 | With one sample the negotiated size lies between minimum and preferred, fits the budget, is within 4 MiB of the largest admissible size up to the offer; pressure failure exactly when the minimum is inadmissible; budget failure exactly when it cannot fit; closing the lease gives the ledger back |
| `LedgerRuns.LedgerStaysBounded` | crates/fossilsense/src/build_coordinator.rs:280-308 | In every run the active estimate and whatever a live lease would restore stay within the temporary budget and below the recorded peaks |
| `LedgerRuns.CancelledBuildReserves` | crates/fossilsense/src/build_coordinator.rs:896-917 | In every run a cancelled build still gets exactly what fits, and only by a call that looked at the token before it was raised |
| `LedgerRuns.NestedScopesRestore` | crates/fossilsense/src/build_coordinator.rs:293-308 | In every run properly nested phases and scopes restore reserved and retained bytes exactly, whatever was reserved or retained inside and whatever else happened |
| `Signals.ScopeOpens` | crates/fossilsense/src/build_coordinator.rs:802-821 | A phase makes its bytes the whole estimate and a nested scope adds them to its parent's; it opens exactly when that estimate is accepted, keeps the retained bytes, and remembers both numbers of the parent |
| `Signals.RetainSettles` | crates/fossilsense/src/build_coordinator.rs:280-291 | Retaining puts the estimate back to the parent's and adds the bytes to what the parent retained, exactly when budget, token and target allow it |
| `Signals.RefusalReason` | crates/fossilsense/src/build_coordinator.rs:896-931 | A refused reservation names the first reason that applies: raised token, stale permit, budget, pressure |
| `Signals.ClaimCounts` | crates/fossilsense/src/build_coordinator.rs:904-962 | The counters and peaks after a reservation: refusals for memory and missing samples are counted, peaks rise to what was accepted |
| `ScopeRuns.CrossedScopesRestoreIff` | crates/fossilsense/src/build_coordinator.rs:293-308 | Of two scopes in any run, whatever happens between and after their openings: closed in reverse they give back the ledger before the first; closed in the order they opened they restore it if and only if the second found that ledger too, opening the first included |
| `ScopeRuns.CrossedScopesLoseBytes` | crates/fossilsense/src/build_coordinator.rs:293-308 | A run from the start in which two scopes closed in the order they opened leave ten bytes in the ledger |
| `ScopeRuns.OpenIsReadThenOpen` | crates/fossilsense/src/build_coordinator.rs:802-821 | Reading the ledger and claiming over it, as two events of a run with none in between, is the scoped reservation: same state, a lease exactly when it succeeds, remembering what was read |
| `ScopeRuns.NegotiationIsARun` | crates/fossilsense/src/build_coordinator.rs:844-858 | The retry loop, with any samples and clock, is a run of such openings and ends in the lease it returns |
| `ScopeRuns.UpToIsARun` | crates/fossilsense/src/build_coordinator.rs:825-858 | So is the whole negotiated reservation |
| `Compactions.OneWorkerPerRoot` | crates/fossilsense/src/build_coordinator.rs:661-680 | In every run in which the root is only removed while it has no worker or during shutdown, the root has at most one compaction worker |
| `Compactions.OutdatedIsCancelled` | crates/fossilsense/src/build_coordinator.rs:666-675 | In every such run an epoch in flight below the latest has a cancelled token |
| `Compactions.WorkerStopsAtTheHighest` | crates/fossilsense/src/build_coordinator.rs:682-724 | In every such run a worker always gets the highest epoch requested since it started, is told to stop by finish exactly when it finished that one, and by retry only during shutdown; if its root was removed during shutdown it stops at the next question |
| `Compactions.AcceptedIsHeard` | crates/fossilsense/src/server/indexing/cache.rs:1389-1483 | In every such run an accepted request has a worker that knows of its epoch |
| `Compactions.RemovalBreaksIt` | crates/fossilsense/src/build_coordinator.rs:636-659 | A root removed under a running worker outside of shutdown: the next request for any epoch starts a second worker beside the first |
| `Compactions.RemovalIsSafeIff` | crates/fossilsense/src/build_coordinator.rs:636-680 | The condition on removals is exact at every state such a run reaches: at most one worker whatever follows, if and only if no worker of the root runs or the coordinator is shutting down |
| `Coordinator.BuildCoordinator.CancelStaleCompaction` | crates/fossilsense/src/build_coordinator.rs:456-468 | In place: a foreground build cancels a running compaction once, as `Signals.ForegroundComesFirst` promises; the new state equals the function the runs above use |
| `Coordinator.BuildCoordinator.ClearTheWay` | crates/fossilsense/src/build_coordinator.rs:451-469 | In place: the first look of a build that wants in: refused during shutdown, else a compaction makes way; the new state equals the function the runs above use |
| `Coordinator.BuildCoordinator.EnqueueBuild` | crates/fossilsense/src/build_coordinator.rs:496-523 | In place: queueing refuses during shutdown, makes way, and takes the next ticket; the new state equals the function the runs above use |
| `Coordinator.BuildCoordinator.SelectWaiter` | crates/fossilsense/src/build_coordinator.rs:774-781 | The selection loop finds the index of the selection rule |
| `Coordinator.BuildCoordinator.TakeWaiter` | crates/fossilsense/src/build_coordinator.rs:783-789 | In place: the waiter with the ticket leaves the queue; the new state equals the function the runs above use |
| `Coordinator.BuildCoordinator.GrantWaiter` | crates/fossilsense/src/build_coordinator.rs:726-754 | In place: the whole new state of a grant; the new state equals the function the runs above use |
| `Coordinator.BuildCoordinator.PollWaiter` | crates/fossilsense/src/build_coordinator.rs:527-560 | In place: one pass of the waiting loop: shutdown, cancellation, grant or wait; the new state equals the function the runs above use |
| `Coordinator.BuildCoordinator.TimeOut` | crates/fossilsense/src/build_coordinator.rs:562-579 | In place: the waiter leaves and its root backs off; the new state equals the function the runs above use |
| `Coordinator.BuildCoordinator.ReleaseSlot` | crates/fossilsense/src/build_coordinator.rs:756-767 | In place: only the active ticket frees the slot; the new state equals the function the runs above use |
| `Coordinator.BuildCoordinator.ShutDown` | crates/fossilsense/src/build_coordinator.rs:618-634 | In place: tokens of the active build, all waiters and all compactions are cancelled; the new state equals the function the runs above use |
| `Coordinator.BuildCoordinator.RemoveWorkspaceRoot` | crates/fossilsense/src/build_coordinator.rs:636-659 | In place: the active build is cancelled, waiters, back-off and compaction of the root go; the new state equals the function the runs above use |
| `Coordinator.BuildCoordinator.ClaimBytes` | crates/fossilsense/src/build_coordinator.rs:905-962 | In place: the locked part of a reservation, accepted or refused, with its whole new state; the new state equals the function the runs above use |
| `Coordinator.BuildCoordinator.ReserveBytes` | crates/fossilsense/src/build_coordinator.rs:896-962 | In place: the look at the token, then the locked part; the new state equals the function the runs above use |
| `Coordinator.BuildCoordinator.OpenScope` | crates/fossilsense/src/build_coordinator.rs:802-821 | In place: a phase or nested scope claims over the ledger it read and remembers it; the new state and the lease are those of `Ledger.ReadThenOpen`, which `ScopeRuns` shows to be runs |
| `Coordinator.BuildCoordinator.OpenScopeUpTo` | crates/fossilsense/src/build_coordinator.rs:825-858 | In place: the negotiation loop; the new state and the lease are those of `Ledger.ReserveScopedUpTo`, which `ScopeRuns` shows to be runs |
| `Coordinator.BuildCoordinator.RetainBytes` | crates/fossilsense/src/build_coordinator.rs:280-291 | In place: a lease replaces the retained bytes of its scope; the new state equals the function the runs above use |
| `Coordinator.BuildCoordinator.CloseScope` | crates/fossilsense/src/build_coordinator.rs:293-308 | In place: dropping a lease restores the two numbers it remembered; the new state equals the function the runs above use |
| `Coordinator.BuildCoordinator.Request` | crates/fossilsense/src/build_coordinator.rs:661-680 | In place: a compaction request starts a worker, updates the pending epoch or is stale; the new state equals the function the runs above use |
| `Coordinator.BuildCoordinator.BeginNext` | crates/fossilsense/src/build_coordinator.rs:682-692 | In place: the worker takes the latest epoch with a new token; the new state equals the function the runs above use |
| `Coordinator.BuildCoordinator.Finish` | crates/fossilsense/src/build_coordinator.rs:694-709 | In place: finish continues exactly below the latest epoch, else forgets the root; the new state equals the function the runs above use |
| `Coordinator.BuildCoordinator.Retry` | crates/fossilsense/src/build_coordinator.rs:711-724 | In place: retry clears the current epoch, except during shutdown; the new state equals the function the runs above use |
| `BackOff.TimeOutHoldsOff` | crates/fossilsense/src/build_coordinator.rs:562-579 | In every run a build that waited in vain holds off builds of its root and kind, and no others, for the whole back-off time, as long as no build of that root times out or reserves and the root is not removed |
| `BackOff.RefusalHoldsOff` | crates/fossilsense/src/build_coordinator.rs:904-962 | So does a reservation refused for memory, for the kind of the build that asked |
| `BackOff.UntouchedStep` | crates/fossilsense/src/build_coordinator.rs:470-495 | Those three are the only steps that change the back-off of a root |
| `BackOff.StepEndsIff` | crates/fossilsense/src/build_coordinator.rs:470-495 | A kind of build that is held off is so after the next step if and only if that is not a time-out of another kind of the root, its removal, an accepted claim for it, or a claim for it refused for memory while another kind is active |
| `BackOff.HeldThroughoutIff` | crates/fossilsense/src/build_coordinator.rs:470-495 | A kind stays held off all through a run if and only if no step of the run is one of those |
| `BackOff.OtherKindEndsIt` | crates/fossilsense/src/build_coordinator.rs:562-579 | A time-out of another kind of the same root ends the first kind's back-off at once: there is one entry per root |
| `Coordinator.PermitLease.Drop` | crates/fossilsense/src/build_coordinator.rs:260-270 | The last drop, and no other, releases the slot |
| `GenerationSafety.ActiveIsTheLastSwapped` | crates/fossilsense/src/pathing.rs:210-262 | In every interleaving of builds, publications, drop guards, cleanups, readers and crashes between file operations, the directory resolves to the last generation swapped in; that database exists exactly when there is a manifest or there was a legacy database from the start; every leased one exists |
| `GenerationSafety.EmptyDirectoryResolves` | crates/fossilsense/src/pathing.rs:27-54 | In an empty directory the resolver names a database that is not there |
| `GenerationSafety.DistinctNamesMakeFreshSeals` | crates/fossilsense/src/pathing.rs:216-229 | The condition on seals is met by every run in which no two publications share generation and build token and none of their names exists at the start |
| `GenerationSafety.StepKeepsLegacy` | crates/fossilsense/src/pathing.rs:27-54 | No step makes or takes away the legacy database |
| `GenerationSafety.NothingGuardedIsLost` | crates/fossilsense/src/pathing.rs:284-379 | No step of such a run removes or rewrites a file of the active, a leased or the legacy database |
| `GenerationSafety.StepIsSafe` | crates/fossilsense/src/pathing.rs:164-199 | The invariant every single step keeps: manifest resolves, guards own only what they made, cleaners hold the current active name, the family lock is never leaked |
| `GenerationSafety.SealIsSafeIff` | crates/fossilsense/src/pathing.rs:228-238 | Exact condition: a seal and everything up to the next seal keeps every guarded file if and only if its target name is neither active nor leased; otherwise one I/O error loses it |
| `GenerationSafety.OnlySwapsRedirect` | crates/fossilsense/src/pathing.rs:257-258 | No step but the manifest replacement changes where the manifest leads |
| `GenerationSafety.SwapResolves` | crates/fossilsense/src/pathing.rs:253-258 | Right after the replacement the manifest resolves to the sealed database and nothing guarded is lost |
| `GenerationNames.FinalNameIsRecognised` | crates/fossilsense/src/pathing.rs:386-393 | Every name a publication chooses is recognised as a generation and accepted as a manifest entry |
| `GenerationNames.FinalNameIsInjective` | crates/fossilsense/src/pathing.rs:221-229 | Generation number and build token can be read back from the name |
| `GenerationNames.GenerationNameIff` | crates/fossilsense/src/pathing.rs:386-393 | A name is taken for a generation if and only if it is `index-g`, an optional plus sign, a decimal number of 64 bits, nothing more or a dash and anything, and `.sqlite` |
| `GenerationNames.TokenIff` | crates/fossilsense/src/pathing.rs:216-224 | A file has a build token exactly when its name starts with `index-build-`; the token ends before the last dot |
| `GenerationNames.AffixesDoNotOverlap` | crates/fossilsense/src/pathing.rs:386-393 | The slice in the name check is always in bounds |
| `GenerationNames.ManifestEntryReadsBack` | crates/fossilsense/src/pathing.rs:32-46 | What publication writes to the manifest reads back, trimmed, as the name |
| `GenerationNames.BaseOfFamily` | crates/fossilsense/src/pathing.rs:320-325 | A sidecar belongs to its database and a database to itself |
| `GenerationNames.StagingIsApart` | crates/fossilsense/src/pathing.rs:334-343 | Staging files and the manifest belong to no generation and not to the legacy index |
| `IndexDirectory.Directory.Publish` | crates/fossilsense/src/pathing.rs:210-262 | In place: the directory after a successful, a rejected and a failed publication, for each operation that may fail |
| `IndexDirectory.Directory.SwapManifest` | crates/fossilsense/src/pathing.rs:240-257 | Manifest staging and replacement; a collision is left alone and only an own staging file is removed |
| `IndexDirectory.Directory.Abandon` | crates/fossilsense/src/pathing.rs:189-199 | What the drop guard removes |
| `IndexDirectory.Directory.Cleanup` | crates/fossilsense/src/pathing.rs:284-379 | In place: exactly the generations that are neither active nor leased go, in ascending order and only before the first lease that cannot be asked for, and only with the cleanup lease and a readable manifest; a name that starts with `index-build-`, or with `active-index-` and ends with `.tmp`, goes if and only if it is aged and the pass finished; every other name stays and no content changes; the number removed, or an error exactly when some spare generation's lease cannot be asked for |
| `IndexDirectory.Directory.Classify` | crates/fossilsense/src/pathing.rs:299-344 | One pass groups generation files by database and finds the stale staging files |
| `IndexDirectory.Directory.RemoveGenerations` | crates/fossilsense/src/pathing.rs:346-366 | Every generation but the active and the leased ones goes, file by file, in ascending order, until a lease cannot be asked for |
| `IndexDirectory.PublishedIsActive` | crates/fossilsense/src/pathing.rs:205-262 | A successful publication is the active one, has the staged content, and changes no other name |
| `IndexDirectory.AcceptsIff` | crates/fossilsense/src/pathing.rs:210-224 | A publication is tried exactly for a file of the directory whose name starts with `index-build-` |
| `IndexDirectory.AbandonedExactly` | crates/fossilsense/src/pathing.rs:189-199 | A publication that fails after its seal costs its staging database and every file of the new one, and nothing else |
| `IndexDirectory.AbandonedKeepsActiveIff` | crates/fossilsense/src/pathing.rs:189-199 | A failed publication leaves resolution alone exactly when the active database had another name |
| `IndexDirectory.CleanupKeepsResolve` | crates/fossilsense/src/pathing.rs:289-298 | Cleanup leaves the manifest leading where it led |
| `DirectoryRuns.CleanupIsARun` | crates/fossilsense/src/pathing.rs:284-379 | The directory the sequential cleanup leaves is the one a run of the interleaved file operations leaves, with lock and other processes as before: the safety of all interleavings covers it |
| `DirectoryRuns.PublishIsARun` | crates/fossilsense/src/pathing.rs:210-262 | The sequential publication that succeeds is the run of its file operations |
| `DirectoryRuns.AbandonIsARun` | crates/fossilsense/src/pathing.rs:164-199 | The one that fails after its seal is a run of its drop guard |
| `DirectoryRuns.ReaderIsARun` | crates/fossilsense/src/store/generation_lease.rs:52-98 | A reader that finds the lock free keeps its lease without the lock until it ends, if the database is there; if not, it is as though it had not come |
| `DirectoryRuns.CrashLeavesFiles` | crates/fossilsense/src/store/generation_lease.rs:15-50 | A crash takes its process and the lock that process holds, and leaves every file and every other process |
| `DirectoryRuns.LockKeepsOut` | crates/fossilsense/src/store/generation_lease.rs:108-136 | While the lock is held no reader, no publication and no locked cleanup starts |
| `Lexical.NewLexicalMap` | crates/fossilsense/src/c_lexical.rs:8-68 | For every byte sequence the scanner terminates and marks a byte as code exactly when the byte-by-byte automaton is in its code state there and the byte is on no directive line |
| `Lexical.MarkPreprocessorLogicalLines` | crates/fossilsense/src/c_lexical.rs:96-124 | The line scanner marks exactly the bytes the line automaton puts on a directive, continuations included |
| `Lexical.RawStringEnd` | crates/fossilsense/src/c_lexical.rs:126-154 | The raw-string jump lands where the automaton returns to code, or nowhere |
| `Lexical.FindClosing` | crates/fossilsense/src/c_lexical.rs:143-153 | The first closing sequence at or after a position |
| `Lexical.SkipQuotedBytes` | crates/fossilsense/src/c_lexical.rs:156-169 | The quoted jump lands where the automaton leaves the literal |
| `Lexical.LineCommentEnd` | crates/fossilsense/src/c_lexical.rs:15-33 | The line-comment jump follows spliced lines as the automaton does |
| `Lexical.BlockCommentEnd` | crates/fossilsense/src/c_lexical.rs:34-43 | The block-comment jump lands behind the comment |
| `Lexical.BodyScan` | crates/fossilsense/src/c_lexical.rs:143-153 | Inside an open raw string the automaton tracks the longest partial delimiter match |
| `Lexical.BodyEnds` | crates/fossilsense/src/c_lexical.rs:143-153 | The first closing sequence ends the literal, not an earlier byte |
| `Lexical.LineScan` | crates/fossilsense/src/c_lexical.rs:96-124 | What a physical line does to the line automaton |
| `LexicalFacts.PlainByteIsCode` | crates/fossilsense/src/c_lexical.rs:11-60 | A byte met in code that starts no comment, no literal and, in C++, no raw string is code, and code goes on behind it |
| `LexicalFacts.QuoteEnds` | crates/fossilsense/src/c_lexical.rs:156-169 | On the bytes alone: a literal that starts in code ends at the first delimiter with an even run of backslashes right before it; code resumes behind it and none of its bytes is code |
| `LexicalFacts.QuoteNeverEnds` | crates/fossilsense/src/c_lexical.rs:156-169 | Without such a delimiter nothing from the opening one on is code |
| `LexicalFacts.EscapedQuote` | crates/fossilsense/src/c_lexical.rs:160-161 | The literal of one escaped quote, followed by a semicolon: of the five bytes the last alone is code |
| `LexicalFacts.BlockEnds` | crates/fossilsense/src/c_lexical.rs:34-43 | A block comment ends with the first star and slash behind its opening, whatever stands between |
| `LexicalFacts.BlockNeverEnds` | crates/fossilsense/src/c_lexical.rs:34-43 | Without them nothing from its opening on is code |
| `LexicalFacts.LineCommentEnds` | crates/fossilsense/src/c_lexical.rs:15-33 | A line comment ends with the first newline whose last byte before it, carriage returns aside, is no backslash |
| `LexicalFacts.LineCommentNeverEnds` | crates/fossilsense/src/c_lexical.rs:15-33 | Without such a newline nothing from its opening on is code |
| `LexicalFacts.RawEnds` | crates/fossilsense/src/c_lexical.rs:126-154 | A raw literal with a delimiter of at most 16 bytes, none of them white space, parenthesis or backslash, ends with the first parenthesis, delimiter and quote; nothing in it is escaped |
| `LexicalFacts.RawNeverEnds` | crates/fossilsense/src/c_lexical.rs:143-154 | Without them nothing from its opening on is code |
| `LexicalFacts.RawNeverOpens` | crates/fossilsense/src/c_lexical.rs:126-142 | Without a usable delimiter and a parenthesis nothing from the R on is code |
| `LexicalFacts.DirectiveLines` | crates/fossilsense/src/c_lexical.rs:96-124 | A byte is on a directive if and only if it is no newline and a hash, first on its physical line, opened a line at or before it from which every newline is continued by a backslash, white space aside |
| `CppLiterals.AgreesIff` | crates/fossilsense/src/c_lexical.rs:44-60 | The scanner is in the mode of the C++ standard in front of every byte up to n if and only if no earlier byte departs: an R before a quote that continues a token other than an encoding prefix, an apostrophe inside a number, or a delimiter byte the standard does not admit |
| `CppLiterals.NoRawStringsInC` | crates/fossilsense/src/c_lexical.rs:44 | Without C++ rules no byte departs |
| `CppLiterals.TailOfAnIdentifier` | crates/fossilsense/src/c_lexical.rs:44-53 | The bytes of `xR"a";`: the scanner loses the semicolon, which is code |
| `CppLiterals.DigitSeparator` | crates/fossilsense/src/c_lexical.rs:54-59 | The bytes of `1'0;`: the scanner loses the semicolon, which is code |
| `CppLiterals.VerticalTabDelimiter` | crates/fossilsense/src/c_lexical.rs:136-141 | A raw string with a vertical tab as its delimiter: the scanner goes on with code behind it, the standard has no such literal |
| `CppLiterals.RunReadsBack` | crates/fossilsense/src/c_lexical.rs:44 | The token in front of a byte can be read off the run of identifier bytes before it |
| `CppLiterals.PlainLiteralsAgree` | crates/fossilsense/src/c_lexical.rs:8-60 | A check on the text alone: when every R before a quote stands alone or behind an encoding prefix, no apostrophe follows a number and delimiters are basic, the scanner is outside of comments and literals exactly where the standard is |
| `CppDirectives.MapAgreesIff` | crates/fossilsense/src/c_lexical.rs:8-124 | Mode and directive, all the map is computed from, are as the standard has them in front of every byte up to n if and only if no earlier byte departs: one that departs as a literal, a `#` outside of a directive that is first on its physical line and not the first token of its logical one or the other way round, or a newline that ends the directive for one of the two only |
| `CppDirectives.CodeByteIff` | crates/fossilsense/src/c_lexical.rs:61-68 | Met in code outside of a directive, with both agreed so far, a byte that is not white space is marked as the standard has it if and only if it does not depart |
| `CppDirectives.MapIsRight` | crates/fossilsense/src/c_lexical.rs:61-68 | Without a departing byte the finished map is right about every byte that is not white space |
| `CppDirectives.HashInComment` | crates/fossilsense/src/c_lexical.rs:96-124 | A `#` at the start of a line inside a comment: the map loses the code behind the comment |
| `CppDirectives.CommentInDirective` | crates/fossilsense/src/c_lexical.rs:96-124 | A directive with a comment of two lines: the map takes its second line for code |
| `CppDirectives.HashBehindComment` | crates/fossilsense/src/c_lexical.rs:110-114 | A directive behind a comment on its line: the map takes it for code |
| `CppDirectives.HashBehindSplice` | crates/fossilsense/src/c_lexical.rs:110-122 | A `#` first on the second half of a spliced line of code: the map loses that half |
| `CppDirectives.PlainTextAgrees` | crates/fossilsense/src/c_lexical.rs:8-124 | A check on the text and the scanner's own states: when literals are plain, every `#` is in its place and directives end plainly, the finished map marks a byte that is not white space as code exactly when the standard does |
| `FileList.ChainIsReplay` | crates/fossilsense/src/indexed_files.rs:48-99 | Any chain of successful updates is the plain map with the same edits replayed, in a minimal delta |
| `FileList.UpdateIsAnEdit` | crates/fossilsense/src/indexed_files.rs:48-99 | One successful update: same base, live entries edited exactly at the given paths, delta minimal and within its limit |
| `FileList.UpdateExactly` | crates/fossilsense/src/indexed_files.rs:48-99 | Path by path: after a successful update a listed path holds the last entry supplied for it, or nothing, another what it held, and the overlay lists exactly the paths that differ from the base; it refuses if and only if more than 256 paths are listed, or something changes and the overlay would have more than 256 paths or be estimated above 4 MiB |
| `FileList.Update` | crates/fossilsense/src/indexed_files.rs:48-99 | The update loop computes that list, or refuses |
| `FileList.Overlay` | crates/fossilsense/src/indexed_files.rs:69-89 | The inner loop edits the cloned changes and the count, each path once |
| `FileList.SameContentSameList` | crates/fossilsense/src/indexed_files.rs:84-88 | Equal bases and equal live entries mean equal changes: the delta is canonical |
| `FileList.FromVecIsTheFirstOfEachPath` | crates/fossilsense/src/indexed_files.rs:13-17 | A new list holds the first supplied entry of each path |
| `FileList.LiveIsLookup` | crates/fossilsense/src/indexed_files.rs:37-47 | Lookup through base and delta agrees with the live map |
| `FileList.FileIter.constructor` | crates/fossilsense/src/indexed_files.rs:100-109 | A new iterator has the whole merge ahead of it and the right count |
| `FileList.FileIter.Next` | crates/fossilsense/src/indexed_files.rs:144-161 | Each step yields the head of the merge, ends only when it is empty, and keeps the remaining count exact |
| `FileList.IterationIsListing` | crates/fossilsense/src/indexed_files.rs:100-161 | Iteration is the ascending listing of the live entries, each once |
| `FileList.ListingFacts` | crates/fossilsense/src/indexed_files.rs:142-161 | The listing is strictly ascending and has one entry per live path |
| `ReferenceSearch.SearchReferences` | crates/fossilsense/src/references.rs:452-519 | The chunked early-exit search returns what the plain search over all files does; an I/O error exactly when a failing file is in a chunk that is reached |
| `ReferenceSearch.ChunkedIsPlain` | crates/fossilsense/src/references.rs:457-515 | Wherever the chunked search may stop, sorting and cutting what it has equals sorting and cutting everything; truncated exactly when more than 2000 hits exist |
| `ReferenceSearch.StoppedLateEnough` | crates/fossilsense/src/references.rs:501-504 | Stopping after a chunk with more than 2000 hits loses none of the first 2000, in spite of the per-file cap |
| `ReferenceSearch.CappedIsComplete` | crates/fossilsense/src/references.rs:722-757 | The per-file cap never hides whether the limit is exceeded |
| `ReferenceSearch.HitsSorted` | crates/fossilsense/src/references.rs:509-515 | Hits collected in catalogue order are already in output order |
| `ReferenceSearch.SearchFileReferences` | crates/fossilsense/src/references.rs:722-757 | One file: its first 2001 hits |
| `ReferenceSearch.CollectChunks` | crates/fossilsense/src/references.rs:457-505 | The chunk loop, its stop rule and its errors |
| `ReferenceSearch.CatalogueIsAscending` | crates/fossilsense/src/references.rs:438-446 | The catalogue delivers ascending paths, one per live entry |
| `ReferenceHits.HitIff` | crates/fossilsense/src/references.rs:452-504 | A hit is found if and only if some readable file, of the family when one is asked for, has a line and a match with its path, line, columns and role |
| `ReferenceHits.HitCount` | crates/fossilsense/src/references.rs:722-757 | There are as many hits as matches in those files |
| `ReferenceHits.FamilyIsAFilter` | crates/fossilsense/src/references.rs:467-471 | A search within a family is the search without one over the files of the family |
| `ReferenceHits.AnswerIsThePrefix` | crates/fossilsense/src/references.rs:505-519 | The answer is the first 2000 hits, flagged exactly when there are more |
| `ReferenceHits.FailsIff` | crates/fossilsense/src/references.rs:457-504 | The search fails if and only if some covered file cannot be read and the chunks of 32 files before its own have at most 2000 matches |
| `ReferenceCache.RunKeepsValid` | crates/fossilsense/src/references.rs:228-310 | In every interleaving all keys carry the current epoch, the order is a duplicate-free listing of them, and at most 32 stay |
| `ReferenceCache.HitIsTheLastStored` | crates/fossilsense/src/references.rs:269-310 | A hit is the last value stored under its key since the last clear |
| `ReferenceCache.StaleResultsStayAway` | crates/fossilsense/src/references.rs:551-597 | A result whose search captured its epoch before a clear is never returned after it |
| `ReferenceCache.StoreThenHit` | crates/fossilsense/src/references.rs:277-310 | An accepted store is a hit right afterwards |
| `ReferenceCache.PutFacts` | crates/fossilsense/src/references.rs:277-310 | A put stores its value and evicts at most the key that has been there longest |
| `ReferenceCache.PutOrder` | crates/fossilsense/src/references.rs:277-310 | A known key keeps its place in the order, a new one goes last, and when there is no room the first one leaves |
| `ReferenceCache.ReferenceSearchCache.Clear` | crates/fossilsense/src/references.rs:228-235 | Clear empties the cache and moves to the next epoch |
| `ReferenceCache.ReferenceSearchCache.Lookup` | crates/fossilsense/src/references.rs:269-275 | A lookup returns what is stored |
| `ReferenceCache.ReferenceSearchCache.StoreIfEpoch` | crates/fossilsense/src/references.rs:277-310 | A store is accepted exactly in its own epoch |
| `ReferenceCache.ReferenceRoleCache.Lookup` | crates/fossilsense/src/references.rs:154-164 | Roles are only served for the file fingerprint they were stored with |
| `ReferenceCache.ReferenceRoleCache.Store` | crates/fossilsense/src/references.rs:166-193 | A role store keeps at most 256 files, oldest out first |
| `Relations.EachCallJoinsOnce` | crates/fossilsense/src/call_catalog.rs:272-315 | Conservation: a call with a caller and k candidates occurs in exactly max(1, k) relations, once in each; without a caller in none |
| `Relations.AmbiguousCallStandsAlone` | crates/fossilsense/src/call_catalog.rs:296-314 | A call with k > 1 candidates has k relations of its own, each with this call only, marked ambiguous with it as the common site, leading to the candidates in order |
| `Relations.GroupingIsByKey` | crates/fossilsense/src/call_catalog.rs:687-708 | The relations are the groups of the joins by key: distinct keys, exactly the sites in order, the merged evidence |
| `RelationIndex.SlicesPartition` | crates/fossilsense/src/call_catalog.rs:316-338 | The start and length slices partition the reference array, and each is its relation's sites |
| `RelationIndex.ReferencesAreTheJoins` | crates/fossilsense/src/call_catalog.rs:316-338 | The array has one reference per join, and there are no more relations than references |
| `RelationIndex.ListedWhereItBelongs` | crates/fossilsense/src/call_catalog.rs:340-363 | A relation is listed under outgoing of its caller and incoming of its callee, when it has one, and nowhere else, once each |
| `RelationIndex.DirectionFacts` | crates/fossilsense/src/call_catalog.rs:357-363 | Each list is sorted by the relation order, without repetition |
| `RelationIndex.DirectionOrder` | crates/fossilsense/src/call_catalog.rs:710-733 | Each direction lists its relations by the callee's qualified name, none first, then the caller's, then the ambiguity site, then as recorded |
| `RelationIndex.RelationsPointInside` | crates/fossilsense/src/call_catalog.rs:272-315 | Every relation of an index points at entities of that index |
| `RelationIndex.PageIsAStretch` | crates/fossilsense/src/call_catalog.rs:442-489 | A page is the stretch of the list from the cursor on, no longer than its limit |
| `RelationIndex.RelationTable.RecordRelation` | crates/fossilsense/src/call_catalog.rs:687-708 | The hash-map form of recording agrees with searching the builders for the key |
| `RelationIndex.ResolveCallInto` | crates/fossilsense/src/call_catalog.rs:602-676 | The candidate loop computes the candidates `CandidateFacts.CandidateIff` characterises |
| `RelationIndex.JudgeCandidate` | crates/fossilsense/src/call_catalog.rs:626-674 | The chain of checks and evidence bits, check by check, computes the evidence `CandidateFacts` characterises |
| `RelationIndex.RecordCalls` | crates/fossilsense/src/call_catalog.rs:272-315 | The loop over all calls groups all joins |
| `RelationIndex.Flatten` | crates/fossilsense/src/call_catalog.rs:316-338 | The flattening loop fills relations and references |
| `RelationIndex.ListDirections` | crates/fossilsense/src/call_catalog.rs:340-354 | The listing loop files every relation under both ends |
| `RelationIndex.RelationQueryIndex.constructor` | crates/fossilsense/src/call_catalog.rs:154-365 | The finished index satisfies all of the above |
| `RelationIndex.RelationQueryIndex.RelationPage` | crates/fossilsense/src/call_catalog.rs:442-489 | A page is the requested stretch of the list, each relation with its first sites; limited exactly when one of them has more |
| `Calls.CandidatesFacts` | crates/fossilsense/src/call_catalog.rs:602-676 | A call has each entity at most once among its candidates and no more candidates than entities of its name |
| `Calls.Candidates` | crates/fossilsense/src/call_catalog.rs:602-676 | Every candidate passed every check with the evidence recorded for it; which those are is `CandidateFacts.CandidateIff` |
| `Calls.CallerIsUnique` | crates/fossilsense/src/call_catalog.rs:536-563 | The caller is the entity that alone carries the call's raw key; when none does so alone, the one that alone defines it in the call's file; else there is none |
| `CandidateFacts.CandidateIff` | crates/fossilsense/src/call_catalog.rs:602-676 | An entity is a candidate if and only if the call is in name form and names it, it is a function with a known owner kind, is owned by a record only for a qualified form, has the call's qualified name when there is one, lies in the call's file when its linkage is internal, and a known argument count is neither below its minimum nor above its maximum |
| `CandidateFacts.CandidateEvidenceIs` | crates/fossilsense/src/call_catalog.rs:626-674 | Every candidate carries each evidence code if and only if that code's own condition holds of call and entity, and the confidence that follows from those conditions |
| `CandidateFacts.JoinsExactly` | crates/fossilsense/src/call_catalog.rs:272-315 | What a call contributes: nothing without a caller; one unresolved join with its reason when it may mean nothing; else one join to each entity it may mean, by entity key, ambiguous with the call as common site when there are several |
| `CandidateFacts.CallerIff` | crates/fossilsense/src/call_catalog.rs:536-563 | The caller is the one entity with a variant of the call's raw key; if none is alone with it, the one with a definition of that key in the call's file |
| `CandidateFacts.EntityStandsForGroup` | crates/fossilsense/src/call_catalog.rs:735-779 | No anchor of the group precedes the primary one (definitions, then syntax-tree facts, then path and position); variants are anchors of the group, every anchor is at the place of one, and neighbours are at different places |
| `CandidateFacts.EvidenceIsAll` | crates/fossilsense/src/call_catalog.rs:687-708 | A relation has exactly the evidence of its joins |
| `CallService.IndexWithinLimit` | crates/fossilsense/src/call_service.rs:552-561 | Cross-module bound: with deduplicated anchors, however grouped, the index built from the kept calls has no more references, and no more relations, than the limit |
| `CallService.BuildBounded` | crates/fossilsense/src/call_service.rs:510-561 | Collect, truncate and build: the finished index is within the limit, has the entities of the anchors collected from all sources, and the longest prefix of the calls whose cost fits; recall is limited exactly when some anchor's identity was not collected |
| `CallService.AppendAnchorsBounded` | crates/fossilsense/src/call_service.rs:646-668 | New anchors are collected up to the limit, without repeated identities; limited exactly when one did not fit |
| `CallService.ExtendedInTwo` | crates/fossilsense/src/call_service.rs:510-551 | Several bounded collections in a row are one bounded collection of everything |
| `CallService.ExtendedPicks` | crates/fossilsense/src/call_service.rs:646-668 | What is collected are the first anchors of identities not there before, in order; one is left out only when the limit is reached and every collected one comes before it |
| `CallService.CostCountsAnchors` | crates/fossilsense/src/call_service.rs:573-592 | A call is charged one expansion for each collected anchor of its callee's name, and at least one |
| `CallService.ApplyCandidateExpansionBudget` | crates/fossilsense/src/call_service.rs:568-602 | The kept calls are the longest prefix whose summed cost fits; limited exactly when some were dropped |
| `CallService.EntitiesWithinCost` | crates/fossilsense/src/call_service.rs:573-592 | A name has no more entities than the distinct anchors it is charged for |
| `CallService.DuplicatesBreakTheBound` | crates/fossilsense/src/call_service.rs:646-668 | Without deduplication the bound fails for any two anchors of one identity, grouped apart, that a call with a caller may both mean |
| `CallService.MergeCalls` | crates/fossilsense/src/call_service.rs:473-497 | The two truncations of overlay and stored calls amount to one cut of the merged list |
| `CallService.StoredCallsAreShadowed` | crates/fossilsense/src/call_service.rs:670-682 | No stored call of an open file survives the merge |
| `CallService.MergedIff` | crates/fossilsense/src/call_service.rs:462-489 | In the merged list are the wanted calls of the open files of the family, and the stored calls whose file is not open |
| `Overlay.SnapshotIsOrderFree` | crates/fossilsense/src/candidate_service.rs:523-593 | For files with distinct paths every permutation gives the same by-name, by-record, by-path and prefix sequences |
| `Overlay.SnapshotsAgree` | crates/fossilsense/src/candidate_service.rs:370-595 | Two snapshots of the same open files answer every lookup alike |
| `Overlay.IndexIsOrderFree` | crates/fossilsense/src/candidate_service.rs:526-593 | Any list whose sort key leads back to the file is independent of the file order |
| `Overlay.CandidateOverlaySnapshot.constructor` | crates/fossilsense/src/candidate_service.rs:370-595 | Gathering file by file and sorting each list in place gives those sequences |
| `Overlay.CandidateOverlaySnapshot.AddFile` | crates/fossilsense/src/candidate_service.rs:375-522 | One file is added to every index after what is there |
| `Overlay.CandidateOverlaySnapshot.AddMembers` | crates/fossilsense/src/candidate_service.rs:478-510 | Members go to the only record of their file that their owner names |
| `Overlay.CandidateOverlaySnapshot.SortLists` | crates/fossilsense/src/candidate_service.rs:526-593 | Every list of every index is sorted by its key |
| `OverlayFacts.CallableIff` | crates/fossilsense/src/candidate_service.rs:440-446 | Under a name are the callables of that name of all open files |
| `OverlayFacts.DeclarationIff` | crates/fossilsense/src/candidate_service.rs:418-439 | Under a name are the declarations of that name, each with its file |
| `OverlayFacts.RecordByNameIff` | crates/fossilsense/src/candidate_service.rs:461-476 | Under a name are the records that go by it: display name, tag or typedef |
| `OverlayFacts.NamesAreItsNames` | crates/fossilsense/src/candidate_service.rs:461-469 | A record is filed under each of its names once |
| `OverlayFacts.RecordByPathIff` | crates/fossilsense/src/candidate_service.rs:447-460 | Under a path are the records of that file |
| `OverlayFacts.MemberIff` | crates/fossilsense/src/candidate_service.rs:484-510 | Under a path and record key are the members of that file that go there: to the only record their owner names, else to the key they carry |
| `OverlayFacts.PrefixMemberIff` | crates/fossilsense/src/candidate_service.rs:478-483 | The prefix index has every member of every open file |
| `OverlayFacts.AliasIff` | crates/fossilsense/src/candidate_service.rs:511-520 | Under a name are the aliases of that name |
| `OverlayFacts.FamilyIff` | crates/fossilsense/src/candidate_service.rs:376-379 | Every open file has its family, and no other path has one |
| `OverlayFacts.FallbackIff` | crates/fossilsense/src/candidate_service.rs:407-414 | The fallback completions are those of all open files |
| `OverlayFacts.KeptDeclarationIs` | crates/fossilsense/src/candidate_service.rs:418-436 | Under a fingerprint stays the last declaration with it of the last file that has one |
| `OverlayFacts.ListsAreInFileOrder` | crates/fossilsense/src/candidate_service.rs:526-593 | Callables, declarations, records by name and aliases stand by file, then by position, then by fingerprint or key |
| `OverlayFacts.ListsAreInPlaceOrder` | crates/fossilsense/src/candidate_service.rs:526-593 | Records of a file stand by position and key, members of a record by position, name and kind |
| `Overlay.ForeignAnchorsDependOnOrder` | crates/fossilsense/src/candidate_service.rs:526-533 | The anchor lists need each anchor to carry its own file's path: otherwise two files may depend on their order |
| `Overlay.FallbacksAreOrderFreeIff` | crates/fossilsense/src/candidate_service.rs:407-414 | The unsorted fallback completions are order-free exactly when at most one file has any |
| `Overlay.FingerprintsAreOrderFreeIff` | crates/fossilsense/src/candidate_service.rs:421-436 | The declaration kept under a fingerprint is order-free exactly when at most one file declares it |
| `PrefixLookup.MembersByPrefix` | crates/fossilsense/src/candidate_service.rs:893-923 | The lookup scans min(limit, matches), reports truncation exactly when more match, and returns those of the family in order; untruncated it equals the full linear filter |
| `PrefixLookup.PartitionPoint` | crates/fossilsense/src/candidate_service.rs:903-905 | The binary search finds the first name not below the prefix |
| `PrefixLookup.MatchesAreABlock` | crates/fossilsense/src/candidate_service.rs:909-921 | In an ascending index the entries with a prefix are one block from the partition point on |
| `PrefixLookup.MatchingKeeps` | crates/fossilsense/src/candidate_service.rs:909-921 | The matches are, in order and once each, the entries whose lower-case name starts with the lower-case prefix |
| `PrefixLookup.OfFamilyKeeps` | crates/fossilsense/src/candidate_service.rs:909-921 | Of them the family's are those whose file is known to be of it |
| `PrefixLookup.SnapshotIndexAscends` | crates/fossilsense/src/candidate_service.rs:577-585 | Names ascend along the snapshot's own index |
| `Scope.PruningLosesNothing` | crates/fossilsense/src/config.rs:663-735 | Without exclude globs the pruned walk finds exactly the in-scope files of the unpruned one, in order |
| `Scope.PrunedWalkFinds` | crates/fossilsense/src/config.rs:663-796 | In general it finds exactly the in-scope files with no glob-excluded directory above them |
| `Scope.InScopeIsKept` | crates/fossilsense/src/config.rs:737-796 | Without exclude globs a file in scope is kept and so is every directory above it |
| `Scope.DirectoriesAboveAreKept` | crates/fossilsense/src/config.rs:671-729 | Above an allowed path a directory is kept exactly when no exclude glob matches it |
| `Scope.ExcludeGlobsMayCostFiles` | crates/fossilsense/src/config.rs:690-699 | A concrete exclude glob that loses an in-scope file |
| `ScopeFacts.InScopeIff` | crates/fossilsense/src/config.rs:737-796 | A file is in scope if and only if none of its components is an excluded directory name up to case, some include selects it or there are none, no exclude rejects it, and its name is a stem, a dot and a configured extension up to case |
| `ScopeFacts.KeptIff` | crates/fossilsense/src/config.rs:663-735 | A walk enters a directory if and only if its name is not excluded, no exclude rejects it, and the includes are empty, cover it, lie around it, or hold a pattern; of files it keeps those with a configured extension |
| `ScopeFacts.SegmentsAre` | crates/fossilsense/src/config.rs:754-759 | The segments of a path are its maximal stretches without a slash |
| `Scope.Build` | crates/fossilsense/src/config.rs:375-438 | The matchers hold the lowered entries, the globs, and exactly the prefixes of the entries at their slashes |
| `Scope.AncestorPrefixes` | crates/fossilsense/src/config.rs:391-397 | The position-advancing loop finds every slash once |
| `Scope.SegmentsSplit` | crates/fossilsense/src/config.rs:754-759 | The segments of a path are those before a slash followed by those after it |
| `History.StreamingTopK` | crates/fossilsense/src/completion_history.rs:192-202 | Starting empty, after any run of accepts and clear-alls the log is the first entries of the stable newest-first sort of everything accepted since the last clear-all |
| `History.LogIsTheNewest` | crates/fossilsense/src/completion_history.rs:192-202 | The accepted events can be ranked newest first with ties in the order of acceptance, and the log is the first `cap` of that ranking |
| `History.TopKFromAnyFile` | crates/fossilsense/src/completion_history.rs:160-202 | From any opened file the same holds once one event was accepted |
| `History.RecordSeesOnlyTheTop` | crates/fossilsense/src/completion_history.rs:192-202 | Recording into the truncated log equals truncating the record into the whole history |
| `History.SortAfterPush` | crates/fossilsense/src/completion_history.rs:196-199 | Sorting after a push is inserting behind equal keys |
| `History.ClearWorkspaceExact` | crates/fossilsense/src/completion_history.rs:217-225 | Exactly when clearing one workspace keeps the log the top of the remaining events |
| `History.CompletionHistoryStore.RecordAccept` | crates/fossilsense/src/completion_history.rs:192-202 | In place: push, stable sort, truncate to 4096 |
| `History.CompletionHistoryStore.ClearAll` | crates/fossilsense/src/completion_history.rs:234-238 | In place: the log is emptied and its length reported |
| `History.CompletionHistoryStore.ClearWorkspace` | crates/fossilsense/src/completion_history.rs:217-225 | In place: the other workspaces' events stay, in order |
| `History.KeyRoundTrip` | crates/fossilsense/src/completion_history.rs:265-274 | Every 64-bit candidate key survives printing and parsing |
| `History.HashIdentifiesKey` | crates/fossilsense/src/completion_history.rs:269-274 | A text parses to a key exactly when it is the printed key up to letter case |
| `History.FromEntries` | crates/fossilsense/src/completion_history.rs:93-106 | The counts are the numbers of countable entries per key, and the total is their sum |
| `History.OccurrencesAre` | crates/fossilsense/src/completion_history.rs:93-106 | A count is the number of entries whose hash spells the key and whose kind, intent and prefix bucket are its own |
| `History.CountableAre` | crates/fossilsense/src/completion_history.rs:93-106 | The total is the number of entries with a well-formed hash |
| `History.HashParsesIff` | crates/fossilsense/src/completion_history.rs:269-274 | A hash is well formed exactly when it is sixteen hexadecimal digits of either case |
| `Ordering.StableSortFacts` | crates/fossilsense/src/candidate_service.rs:526-593 | What the standard library promises for its stable sorts: ascending, same elements, equal keys in order |
| `Ordering.StableSortArranges` | crates/fossilsense/src/candidate_service.rs:526-593 | A stable sort puts each position of its input in one place, and positions of equal key in their order |
| `Ordering.SortedUnique` | crates/fossilsense/src/candidate_service.rs:526-593 | A sorted sequence is determined by its runs of equal keys |

## Left out

- Tree-sitter parsing, AST collection and recovery; the SQLite store and its read handles; HTTP and editor protocol layers.
- Task wake-ups, dropped futures of queued builds, real clocks, parallel execution inside one search chunk, and mutex poisoning: critical sections are atomic steps.
- `reserve_with_wait`, the build statistics and the coordinator snapshot: they add no state of their own.
- Wrap-around of tickets and epochs at 2^64 and the case-insensitive path branches for Windows.
- The lease databases as files: leases are facts about processes, and hash collisions between lease names are excluded.
- Explicit `--db` publication: one rename without manifest, leases or cleanup.
- The lookup maps of the call catalogue by raw key, by name and by path are functions of the entities; the loops that fill them are not modelled, and neither are position lookups and locators.
- Group-key derivation, strict counterpart matching and its budgets.
- Include resolution and the request-local reach graph of the overlay.
- CppLiterals.AgreesIff: the reference automaton covers the start of raw strings, their delimiters and digit separators; line splices inside tokens, universal character names and unterminated ordinary literals are treated as the scanner treats them.
- CppDirectives.MapAgreesIff: a directive starts at `#`; the alternative token `%:` and the module and import directives of C++20, which have no `#`, are not covered. White space, which is never a token, is left out of the comparison of single bytes.
- IndexDirectory.Directory.Cleanup: a file that cannot be removed, and the removal of the lease databases at the end with its own error, are not modelled.
- RelationIndex.RelationQueryIndex.constructor: takes the entities as given; grouping the anchors, choosing the primary anchor's key, and the lookup maps are not built by it.
- RelationIndex.RelationQueryIndex.RelationPage: leaves out the evidence text of each relation and the flag of an entity whose candidates were limited, which only copies an input.
- Overlay.CandidateOverlaySnapshot.constructor: leaves out the maps that only store one value per path (source text, includes, coverage, availability, Go packages, calls), the record by key, and the entity fingerprints.
- Overlay.CandidateOverlaySnapshot.AddFile: as the constructor; fallback completions and declarations by fingerprint are functions beside it.
- Language overrides, include-path probing and the parsing of the configuration file; the glob matcher itself.
- The journal write and the pretty-printed file of the accept log; blake3.
- Byte accounting of the file list: the size estimate is a parameter of `FileList.Updated`.
- Hit columns in UTF-16 and the classification of roles: both are given with the matches.
