/**
 The indexed file catalogue (indexed_files.rs): an immutable sorted base with a
 bounded overlay of changed paths, and the iterator that merges the two. The
 plain form it must agree with is a map from path to entry.
 */
module FileList {
  import opened Basics
  import opened Ordering

  const MAX_CHANGED_PATHS := 256
  const MAX_DELTA_BYTES := 4 * 1024 * 1024

  datatype Entry = Entry(path: string, file: string)

  type Changes = map<string, Option<Entry>>

  datatype IndexedFileList = IndexedFileList(base: seq<Entry>, changes: Changes, count: nat)

  ghost predicate Ascending(s: seq<Entry>) {
    forall i, j :: 0 <= i < j < |s| ==> StringLt(s[i].path, s[j].path)
  }

  function Get<V>(m: map<string, V>, k: string): Option<V> {
    if k in m then Some(m[k]) else None
  }

  /** The binary search of the sorted base. */
  function BaseEntry(base: seq<Entry>, path: string): Option<Entry> {
    if base == [] then None
    else if base[0].path == path then Some(base[0])
    else BaseEntry(base[1..], path)
  }

  function Lookup(list: IndexedFileList, path: string): Option<Entry> {
    if path in list.changes then list.changes[path] else BaseEntry(list.base, path)
  }

  function Paths(base: seq<Entry>): set<string> {
    set e | e in base :: e.path
  }

  /** The plain map the catalogue stands for. */
  function Live(list: IndexedFileList): map<string, Entry> {
    map k | k in Paths(list.base) + list.changes.Keys && Lookup(list, k).Some? :: Lookup(list, k).value
  }

  /** The overlay with nothing in it that the base already says. */
  function MinimalDelta(base: seq<Entry>, live: map<string, Entry>): Changes {
    map k | k in Paths(base) + live.Keys && Get(live, k) != BaseEntry(base, k) :: Get(live, k)
  }

  ghost predicate WellKeyed(live: map<string, Entry>) {
    forall k :: k in live ==> live[k].path == k
  }

  ghost predicate WellFormed(list: IndexedFileList) {
    Ascending(list.base)
    && list.changes == MinimalDelta(list.base, Live(list))
    && WellKeyed(Live(list))
    && |list.changes| <= MAX_CHANGED_PATHS
    && list.count == |Live(list)|
  }

  lemma {:induction false} BaseEntryFacts(base: seq<Entry>, path: string)
    ensures BaseEntry(base, path).Some? <==> path in Paths(base)
    ensures BaseEntry(base, path).Some? ==>
      BaseEntry(base, path).value in base && BaseEntry(base, path).value.path == path
  {
    if base != [] {
      BaseEntryFacts(base[1..], path);
      assert base == [base[0]] + base[1..];
    }
  }

  lemma SameLookups<V>(a: map<string, V>, b: map<string, V>)
    requires forall k :: Get(a, k) == Get(b, k)
    ensures a == b
  {
    forall k ensures k in a <==> k in b {
      assert Get(a, k) == Get(b, k);
    }
    forall k | k in a ensures a[k] == b[k] {
      assert Get(a, k) == Get(b, k);
    }
  }

  lemma GetDelta(base: seq<Entry>, live: map<string, Entry>, k: string)
    ensures Get(MinimalDelta(base, live), k)
         == if Get(live, k) != BaseEntry(base, k) then Some(Get(live, k)) else None
  {
    BaseEntryFacts(base, k);
  }

  lemma LiveIsLookup(list: IndexedFileList, path: string)
    ensures Get(Live(list), path) == Lookup(list, path)
  {
    BaseEntryFacts(list.base, path);
  }

  // ---------------------------------------------------------------- building the base

  function PathKey(e: Entry): Key {
    [Text(e.path)]
  }

  /** `dedup_by`: of neighbours with one path the first stays. */
  function Dedup(s: seq<Entry>): seq<Entry>
    decreases |s|
  {
    if |s| < 2 then s
    else if s[0].path == s[1].path then Dedup([s[0]] + s[2..])
    else [s[0]] + Dedup(s[1..])
  }

  function FromVec(entries: seq<Entry>): IndexedFileList {
    var base := Dedup(StableSort(entries, PathKey));
    IndexedFileList(base, map[], |base|)
  }

  lemma {:induction false} DedupFacts(s: seq<Entry>)
    requires Sorted(s, PathKey)
    ensures Ascending(Dedup(s))
    ensures forall e :: e in Dedup(s) ==> e in s
    ensures s != [] ==> Dedup(s) != [] && Dedup(s)[0] == s[0]
    decreases |s|
  {
    if |s| >= 2 {
      if s[0].path == s[1].path {
        var t := [s[0]] + s[2..];
        assert forall i :: 0 < i < |t| ==> t[i] == s[i + 1];
        DedupFacts(t);
      } else {
        DedupFacts(s[1..]);
        var rest := Dedup(s[1..]);
        forall j | 0 <= j < |rest| ensures StringLt(s[0].path, rest[j].path) {
          assert KeyLe(PathKey(s[0]), PathKey(s[1]));
          assert rest[j] in s[1..];
          AscendingFirst(s[1..], rest[j]);
          StringLeTransitive(s[0].path, s[1].path, rest[j].path);
          StringLeTotal(s[0].path, s[1].path);
          StringLeTotal(s[1].path, rest[j].path);
        }
      }
    }
  }

  lemma AscendingFirst(s: seq<Entry>, e: Entry)
    requires Sorted(s, PathKey) && s != [] && e in s
    ensures StringLe(s[0].path, e.path)
  {
    var i :| 0 <= i < |s| && s[i] == e;
    assert KeyLe(PathKey(s[0]), PathKey(s[i])) by {
      KeyLeTotal(PathKey(s[0]), PathKey(s[0]));
    }
    StringLeReflexive(e.path);
  }

  lemma {:induction false} DedupLookup(s: seq<Entry>, path: string)
    ensures BaseEntry(Dedup(s), path) == BaseEntry(s, path)
    decreases |s|
  {
    if |s| >= 2 {
      if s[0].path == s[1].path {
        var t := [s[0]] + s[2..];
        assert t[1..] == s[2..] && s[1..][1..] == s[2..];
        DedupLookup(t, path);
      } else {
        DedupLookup(s[1..], path);
        assert ([s[0]] + Dedup(s[1..]))[1..] == Dedup(s[1..]);
      }
    }
  }

  lemma {:induction false} FirstOfRun(s: seq<Entry>, path: string)
    ensures var run := Select(s, PathKey, [Text(path)]);
            BaseEntry(s, path) == (if run == [] then None else Some(run[0]))
  {
    if s != [] {
      FirstOfRun(s[1..], path);
      assert PathKey(s[0]) == [Text(path)] <==> s[0].path == path;
    }
  }

  lemma {:induction false} CountPaths(s: seq<Entry>)
    requires Ascending(s)
    ensures |Paths(s)| == |s|
  {
    if s != [] {
      var last := s[|s| - 1];
      var front := s[..|s| - 1];
      CountPaths(front);
      assert s == front + [last];
      assert Paths(s) == Paths(front) + {last.path};
      assert last.path !in Paths(front);
    } else {
      assert Paths(s) == {};
    }
  }

  lemma PlainList(base: seq<Entry>)
    requires Ascending(base)
    ensures WellFormed(IndexedFileList(base, map[], |base|))
    ensures forall k :: Get(Live(IndexedFileList(base, map[], |base|)), k) == BaseEntry(base, k)
  {
    var list := IndexedFileList(base, map[], |base|);
    forall k
      ensures Get(Live(list), k) == BaseEntry(base, k)
      ensures Get(list.changes, k) == Get(MinimalDelta(base, Live(list)), k)
    {
      LiveIsLookup(list, k);
      GetDelta(base, Live(list), k);
    }
    SameLookups(list.changes, MinimalDelta(base, Live(list)));
    forall k ensures k in Live(list) <==> k in Paths(base) {
      BaseEntryFacts(base, k);
    }
    forall k | k in Live(list) ensures Live(list)[k].path == k {
      BaseEntryFacts(base, k);
    }
    assert Live(list).Keys == Paths(base);
    assert |Live(list)| == |Live(list).Keys|;
    CountPaths(base);
  }

  lemma SortedBase(entries: seq<Entry>, path: string)
    ensures Ascending(Dedup(StableSort(entries, PathKey)))
    ensures BaseEntry(Dedup(StableSort(entries, PathKey)), path) == BaseEntry(entries, path)
  {
    var sorted := StableSort(entries, PathKey);
    StableSortFacts(entries, PathKey);
    DedupFacts(sorted);
    DedupLookup(sorted, path);
    FirstOfRun(sorted, path);
    FirstOfRun(entries, path);
    assert Select(sorted, PathKey, [Text(path)]) == Select(entries, PathKey, [Text(path)]);
  }

  /** A new catalogue is valid and answers with the first input entry of each path. */
  lemma FromVecIsTheFirstOfEachPath(entries: seq<Entry>, path: string)
    ensures WellFormed(FromVec(entries))
    ensures Get(Live(FromVec(entries)), path) == BaseEntry(entries, path)
  {
    var base := Dedup(StableSort(entries, PathKey));
    SortedBase(entries, path);
    PlainList(base);
    assert FromVec(entries) == IndexedFileList(base, map[], |base|);
    assert Get(Live(IndexedFileList(base, map[], |base|)), path) == BaseEntry(base, path);
  }

  // ---------------------------------------------------------------- updates

  /** Collecting into a `BTreeMap`: the last entry of each path wins. */
  function FreshMap(supplied: seq<Entry>): map<string, Entry> {
    if supplied == [] then map[]
    else FreshMap(supplied[..|supplied| - 1])[supplied[|supplied| - 1].path := supplied[|supplied| - 1]]
  }

  lemma {:induction false} FreshMapKeyed(supplied: seq<Entry>)
    ensures WellKeyed(FreshMap(supplied))
  {
    if supplied != [] {
      FreshMapKeyed(supplied[..|supplied| - 1]);
    }
  }

  /** The edit an update stands for: each listed path takes its supplied entry or disappears. */
  function Edited(live: map<string, Entry>, paths: set<string>, supplied: map<string, Entry>): map<string, Entry> {
    map k | k in live.Keys + supplied.Keys && (if k in paths then k in supplied else k in live)
      :: if k in paths then supplied[k] else live[k]
  }

  function PathSet(paths: seq<string>): set<string> {
    set p | p in paths
  }

  predicate Unchanged(list: IndexedFileList, paths: seq<string>, supplied: map<string, Entry>) {
    forall i :: 0 <= i < |paths| ==> Lookup(list, paths[i]) == Get(supplied, paths[i])
  }

  /** What `update` returns; `bytes` is its estimate of the overlay's size. */
  function Updated(list: IndexedFileList, paths: seq<string>, supplied: seq<Entry>, bytes: Changes -> nat)
    : Option<IndexedFileList>
  {
    if |paths| > MAX_CHANGED_PATHS then None
    else if Unchanged(list, paths, FreshMap(supplied)) then Some(list)
    else
      var live := Edited(Live(list), PathSet(paths), FreshMap(supplied));
      var delta := MinimalDelta(list.base, live);
      if |delta| > MAX_CHANGED_PATHS || bytes(delta) > MAX_DELTA_BYTES then None
      else Some(IndexedFileList(list.base, delta, |live|))
  }

  lemma GetEdited(live: map<string, Entry>, paths: set<string>, supplied: map<string, Entry>, k: string)
    ensures Get(Edited(live, paths, supplied), k) == if k in paths then Get(supplied, k) else Get(live, k)
  {
  }

  lemma DeltaIsFaithful(base: seq<Entry>, live: map<string, Entry>, count: nat)
    ensures Live(IndexedFileList(base, MinimalDelta(base, live), count)) == live
  {
    var list := IndexedFileList(base, MinimalDelta(base, live), count);
    forall k ensures Get(Live(list), k) == Get(live, k) {
      GetDelta(base, live, k);
      LiveIsLookup(list, k);
    }
    SameLookups(Live(list), live);
  }

  lemma UnchangedEdit(list: IndexedFileList, paths: seq<string>, supplied: map<string, Entry>)
    requires Unchanged(list, paths, supplied)
    ensures Edited(Live(list), PathSet(paths), supplied) == Live(list)
  {
    var edited := Edited(Live(list), PathSet(paths), supplied);
    forall k ensures Get(edited, k) == Get(Live(list), k) {
      GetEdited(Live(list), PathSet(paths), supplied, k);
      LiveIsLookup(list, k);
      if k in PathSet(paths) {
        var i :| 0 <= i < |paths| && paths[i] == k;
        assert Lookup(list, paths[i]) == Get(supplied, paths[i]);
      }
    }
    SameLookups(edited, Live(list));
  }

  /** A successful update is the same edit on the plain map, and keeps the catalogue valid. */
  lemma UpdateIsAnEdit(list: IndexedFileList, paths: seq<string>, supplied: seq<Entry>, bytes: Changes -> nat)
    requires WellFormed(list)
    requires Updated(list, paths, supplied, bytes).Some?
    ensures WellFormed(Updated(list, paths, supplied, bytes).value)
    ensures Updated(list, paths, supplied, bytes).value.base == list.base
    ensures Live(Updated(list, paths, supplied, bytes).value) == Edited(Live(list), PathSet(paths), FreshMap(supplied))
  {
    if Unchanged(list, paths, FreshMap(supplied)) {
      UnchangedEdit(list, paths, FreshMap(supplied));
    } else {
      var live := Edited(Live(list), PathSet(paths), FreshMap(supplied));
      FreshMapKeyed(supplied);
      DeltaIsFaithful(list.base, live, |live|);
    }
  }

  /** The overlay and the count after the paths in `seen` have been handled. */
  ghost predicate Handled(
    list: IndexedFileList, seen: set<string>, supplied: map<string, Entry>, changes: Changes, count: nat)
  {
    changes == MinimalDelta(list.base, Edited(Live(list), seen, supplied))
    && count == |Edited(Live(list), seen, supplied)|
  }

  function Placed(list: IndexedFileList, path: string, entry: Option<Entry>, changes: Changes): Changes {
    if BaseEntry(list.base, path) == entry then changes - {path} else changes[path := entry]
  }

  function PlacedCount(list: IndexedFileList, path: string, entry: Option<Entry>, count: int): int {
    var wasPresent := Lookup(list, path).Some?;
    if wasPresent && entry.None? then count - 1
    else if !wasPresent && entry.Some? then count + 1
    else count
  }

  lemma NothingHandled(list: IndexedFileList, supplied: map<string, Entry>)
    requires WellFormed(list)
    ensures Handled(list, {}, supplied, list.changes, list.count)
  {
    assert Edited(Live(list), {}, supplied) == Live(list);
  }

  lemma HandleOne(
    list: IndexedFileList, seen: set<string>, path: string, supplied: map<string, Entry>, changes: Changes, count: nat)
    requires Handled(list, seen, supplied, changes, count) && path !in seen
    ensures PlacedCount(list, path, Get(supplied, path), count) >= 0
    ensures Handled(list, seen + {path}, supplied,
              Placed(list, path, Get(supplied, path), changes),
              PlacedCount(list, path, Get(supplied, path), count))
  {
    var live := Edited(Live(list), seen, supplied);
    LiveIsLookup(list, path);
    GetEdited(Live(list), seen, supplied, path);
    EditOne(Live(list), seen, path, supplied);
    AssignedSize(live, path, Get(supplied, path));
    DeltaOne(list.base, live, path, Get(supplied, path));
  }

  lemma AllHandled(
    list: IndexedFileList, paths: seq<string>, supplied: seq<Entry>, bytes: Changes -> nat,
    changes: Changes, count: nat)
    requires |paths| <= MAX_CHANGED_PATHS && !Unchanged(list, paths, FreshMap(supplied))
    requires Handled(list, PathSet(paths), FreshMap(supplied), changes, count)
    ensures Updated(list, paths, supplied, bytes)
         == if |changes| > MAX_CHANGED_PATHS || bytes(changes) > MAX_DELTA_BYTES then None
            else Some(IndexedFileList(list.base, changes, count))
  {
  }

  lemma PathSetPush(paths: seq<string>, i: nat)
    requires i < |paths|
    ensures PathSet(paths[..i + 1]) == PathSet(paths[..i]) + {paths[i]}
  {
    assert paths[..i + 1] == paths[..i] + [paths[i]];
  }

  /** The loop of `update` over the distinct paths. */
  method Overlay(list: IndexedFileList, paths: seq<string>, byPath: map<string, Entry>)
    returns (changes: Changes, count: nat)
    requires Handled(list, {}, byPath, list.changes, list.count)
    ensures Handled(list, PathSet(paths), byPath, changes, count)
  {
    changes := list.changes;
    count := list.count;
    var seen: set<string> := {};
    for i := 0 to |paths|
      invariant seen == PathSet(paths[..i])
      invariant Handled(list, seen, byPath, changes, count)
    {
      var path := paths[i];
      PathSetPush(paths, i);
      if path !in seen {
        HandleOne(list, seen, path, byPath, changes, count);
        count := PlacedCount(list, path, Get(byPath, path), count);
        changes := Placed(list, path, Get(byPath, path), changes);
        seen := seen + {path};
      } else {
        assert seen + {path} == seen;
      }
    }
    assert paths[..|paths|] == paths;
  }

  method Update(list: IndexedFileList, paths: seq<string>, supplied: seq<Entry>, bytes: Changes -> nat)
    returns (next: Option<IndexedFileList>)
    requires WellFormed(list)
    ensures next == Updated(list, paths, supplied, bytes)
  {
    if |paths| > MAX_CHANGED_PATHS {
      return None;
    }
    var byPath := FreshMap(supplied);
    if forall i :: 0 <= i < |paths| ==> Lookup(list, paths[i]) == Get(byPath, paths[i]) {
      return Some(list);
    }
    NothingHandled(list, byPath);
    var changes, count := Overlay(list, paths, byPath);
    AllHandled(list, paths, supplied, bytes, changes, count);
    if |changes| > MAX_CHANGED_PATHS || bytes(changes) > MAX_DELTA_BYTES {
      return None;
    }
    return Some(IndexedFileList(list.base, changes, count));
  }

  // ---------------------------------------------------------------- an update, path by path

  /** The last entry supplied for the path. */
  ghost predicate LastSupplied(supplied: seq<Entry>, path: string, entry: Option<Entry>) {
    if entry.None? then forall i :: 0 <= i < |supplied| ==> supplied[i].path != path
    else exists i :: 0 <= i < |supplied| && supplied[i] == entry.value && entry.value.path == path
           && forall j :: i < j < |supplied| ==> supplied[j].path != path
  }

  lemma LastSuppliedSnoc(front: seq<Entry>, last: Entry, path: string, entry: Option<Entry>)
    requires LastSupplied(front, path, entry)
    ensures LastSupplied(front + [last], path, if last.path == path then Some(last) else entry)
  {
    var all := front + [last];
    assert all[|front|] == last && forall j :: 0 <= j < |front| ==> all[j] == front[j];
    if last.path != path && entry.Some? {
      var i :| 0 <= i < |front| && front[i] == entry.value && entry.value.path == path
               && forall j :: i < j < |front| ==> front[j].path != path;
      assert all[i] == entry.value;
    }
  }

  lemma {:induction false} FreshMapIsTheLast(supplied: seq<Entry>, path: string)
    ensures LastSupplied(supplied, path, Get(FreshMap(supplied), path))
    decreases |supplied|
  {
    if supplied != [] {
      var front, last := supplied[..|supplied| - 1], supplied[|supplied| - 1];
      FreshMapIsTheLast(front, path);
      LastSuppliedSnoc(front, last, path, Get(FreshMap(front), path));
      assert front + [last] == supplied;
    }
  }

  lemma OneLastSupplied(supplied: seq<Entry>, path: string, a: Option<Entry>, b: Option<Entry>)
    requires LastSupplied(supplied, path, a) && LastSupplied(supplied, path, b)
    ensures a == b
  {
    if a.Some? && b.Some? {
      var i :| 0 <= i < |supplied| && supplied[i] == a.value
               && forall j :: i < j < |supplied| ==> supplied[j].path != path;
      var k :| 0 <= k < |supplied| && supplied[k] == b.value
               && forall j :: k < j < |supplied| ==> supplied[j].path != path;
      assert i == k;
    }
  }

  /** What the path holds after the update: a listed one what was supplied last, another what it held. */
  ghost predicate HoldsAfter(list: IndexedFileList, paths: seq<string>, supplied: seq<Entry>, path: string,
                             entry: Option<Entry>)
  {
    if path in paths then LastSupplied(supplied, path, entry) else entry == Lookup(list, path)
  }

  /** `delta` lists exactly the paths that then differ from the base, with what they hold. */
  ghost predicate DeltaAfter(list: IndexedFileList, paths: seq<string>, supplied: seq<Entry>, delta: Changes) {
    forall path, entry :: HoldsAfter(list, paths, supplied, path, entry) ==>
      Get(delta, path) == if entry != BaseEntry(list.base, path) then Some(entry) else None
  }

  lemma EditHoldsAfter(list: IndexedFileList, paths: seq<string>, supplied: seq<Entry>, path: string,
                       entry: Option<Entry>)
    ensures HoldsAfter(list, paths, supplied, path, entry)
       <==> entry == Get(Edited(Live(list), PathSet(paths), FreshMap(supplied)), path)
  {
    GetEdited(Live(list), PathSet(paths), FreshMap(supplied), path);
    LiveIsLookup(list, path);
    FreshMapIsTheLast(supplied, path);
    if path in paths && LastSupplied(supplied, path, entry) {
      OneLastSupplied(supplied, path, entry, Get(FreshMap(supplied), path));
    }
  }

  lemma EditDelta(list: IndexedFileList, paths: seq<string>, supplied: seq<Entry>)
    ensures DeltaAfter(list, paths, supplied,
                       MinimalDelta(list.base, Edited(Live(list), PathSet(paths), FreshMap(supplied))))
  {
    var live := Edited(Live(list), PathSet(paths), FreshMap(supplied));
    forall path, entry | HoldsAfter(list, paths, supplied, path, entry)
      ensures Get(MinimalDelta(list.base, live), path)
           == if entry != BaseEntry(list.base, path) then Some(entry) else None
    {
      EditHoldsAfter(list, paths, supplied, path, entry);
      GetDelta(list.base, live, path);
    }
  }

  /** Nothing to do: every listed path holds what was supplied last for it. */
  ghost predicate NothingChanges(list: IndexedFileList, paths: seq<string>, supplied: seq<Entry>) {
    forall path :: path in paths ==> LastSupplied(supplied, path, Lookup(list, path))
  }

  lemma UnchangedIff(list: IndexedFileList, paths: seq<string>, supplied: seq<Entry>)
    ensures Unchanged(list, paths, FreshMap(supplied)) <==> NothingChanges(list, paths, supplied)
  {
    forall path ensures Lookup(list, path) == Get(FreshMap(supplied), path)
                   <==> LastSupplied(supplied, path, Lookup(list, path)) {
      FreshMapIsTheLast(supplied, path);
      if LastSupplied(supplied, path, Lookup(list, path)) {
        OneLastSupplied(supplied, path, Lookup(list, path), Get(FreshMap(supplied), path));
      }
    }
  }

  /**
   An update that succeeds leaves each path holding what it should and the overlay minimal.
   It refuses exactly when more than 256 paths are listed, or something changes and the
   overlay would then have more than 256 paths or be estimated above 4 MiB.
   */
  lemma UpdateExactly(list: IndexedFileList, paths: seq<string>, supplied: seq<Entry>, bytes: Changes -> nat)
    returns (delta: Changes)
    requires WellFormed(list)
    ensures DeltaAfter(list, paths, supplied, delta)
    ensures var r := Updated(list, paths, supplied, bytes);
      (r.None? <==>
        |paths| > 256
        || (!NothingChanges(list, paths, supplied) && (|delta| > 256 || bytes(delta) > 4194304)))
      && (r.Some? ==>
            r.value.base == list.base && r.value.changes == delta
            && forall path, entry :: HoldsAfter(list, paths, supplied, path, entry) ==>
                 Lookup(r.value, path) == entry)
  {
    var live := Edited(Live(list), PathSet(paths), FreshMap(supplied));
    delta := MinimalDelta(list.base, live);
    EditDelta(list, paths, supplied);
    UnchangedIff(list, paths, supplied);
    if Updated(list, paths, supplied, bytes).Some? {
      UpdateIsAnEdit(list, paths, supplied, bytes);
      UpdatedHolds(list, paths, supplied, Updated(list, paths, supplied, bytes).value);
    }
  }

  lemma UpdatedHolds(list: IndexedFileList, paths: seq<string>, supplied: seq<Entry>, next: IndexedFileList)
    requires next.base == list.base && WellFormed(next)
    requires Live(next) == Edited(Live(list), PathSet(paths), FreshMap(supplied))
    ensures next.changes == MinimalDelta(list.base, Live(next))
    ensures forall path, entry :: HoldsAfter(list, paths, supplied, path, entry) ==> Lookup(next, path) == entry
  {
    forall path, entry | HoldsAfter(list, paths, supplied, path, entry) ensures Lookup(next, path) == entry {
      EditHoldsAfter(list, paths, supplied, path, entry);
      LiveIsLookup(next, path);
    }
  }

  function Assigned(live: map<string, Entry>, path: string, entry: Option<Entry>): map<string, Entry> {
    match entry
    case Some(e) => live[path := e]
    case None => live - {path}
  }

  lemma GetAssigned(live: map<string, Entry>, path: string, entry: Option<Entry>, k: string)
    ensures Get(Assigned(live, path, entry), k) == if k == path then entry else Get(live, k)
  {
  }

  lemma AssignedSize(live: map<string, Entry>, path: string, entry: Option<Entry>)
    ensures |Assigned(live, path, entry)|
         == |live| + (if entry.Some? then 1 else 0) - (if path in live then 1 else 0)
  {
    var after := Assigned(live, path, entry);
    assert |after| == |after.Keys| && |live| == |live.Keys|;
    if entry.Some? {
      assert after.Keys == live.Keys + {path};
    } else {
      assert after.Keys == live.Keys - {path};
    }
  }

  lemma EditOne(live: map<string, Entry>, seen: set<string>, path: string, supplied: map<string, Entry>)
    ensures Edited(live, seen + {path}, supplied) == Assigned(Edited(live, seen, supplied), path, Get(supplied, path))
  {
    var after := Assigned(Edited(live, seen, supplied), path, Get(supplied, path));
    forall k ensures Get(Edited(live, seen + {path}, supplied), k) == Get(after, k) {
      GetEdited(live, seen + {path}, supplied, k);
      GetEdited(live, seen, supplied, k);
      GetAssigned(Edited(live, seen, supplied), path, Get(supplied, path), k);
    }
    SameLookups(Edited(live, seen + {path}, supplied), after);
  }

  lemma DeltaOne(base: seq<Entry>, live: map<string, Entry>, path: string, entry: Option<Entry>)
    ensures MinimalDelta(base, Assigned(live, path, entry))
         == (if BaseEntry(base, path) == entry then MinimalDelta(base, live) - {path}
             else MinimalDelta(base, live)[path := entry])
  {
    var before, after := MinimalDelta(base, live), MinimalDelta(base, Assigned(live, path, entry));
    var expected := if BaseEntry(base, path) == entry then before - {path} else before[path := entry];
    forall k ensures Get(after, k) == Get(expected, k) {
      GetDelta(base, live, k);
      GetDelta(base, Assigned(live, path, entry), k);
      GetAssigned(live, path, entry, k);
    }
    SameLookups(after, expected);
  }

  // ---------------------------------------------------------------- chains of updates

  datatype Batch = Batch(paths: seq<string>, supplied: seq<Entry>)

  function Chain(list: IndexedFileList, batches: seq<Batch>, bytes: Changes -> nat): Option<IndexedFileList>
    decreases |batches|
  {
    if batches == [] then Some(list)
    else
      match Chain(list, batches[..|batches| - 1], bytes)
      case None => None
      case Some(before) => Updated(before, batches[|batches| - 1].paths, batches[|batches| - 1].supplied, bytes)
  }

  function Replay(live: map<string, Entry>, batches: seq<Batch>): map<string, Entry>
    decreases |batches|
  {
    if batches == [] then live
    else
      var last := batches[|batches| - 1];
      Edited(Replay(live, batches[..|batches| - 1]), PathSet(last.paths), FreshMap(last.supplied))
  }

  /** Any chain of successful updates is the same chain of edits on the plain map. */
  lemma {:induction false} ChainIsReplay(list: IndexedFileList, batches: seq<Batch>, bytes: Changes -> nat)
    requires WellFormed(list) && Chain(list, batches, bytes).Some?
    ensures WellFormed(Chain(list, batches, bytes).value)
    ensures Live(Chain(list, batches, bytes).value) == Replay(Live(list), batches)
    decreases |batches|
  {
    if batches != [] {
      var front, last := batches[..|batches| - 1], batches[|batches| - 1];
      ChainIsReplay(list, front, bytes);
      UpdateIsAnEdit(Chain(list, front, bytes).value, last.paths, last.supplied, bytes);
    }
  }

  /** Only the contents count: two histories of one base that agree on every path end in the same value. */
  lemma SameContentSameList(a: IndexedFileList, b: IndexedFileList)
    requires WellFormed(a) && WellFormed(b) && a.base == b.base
    requires forall path :: Lookup(a, path) == Lookup(b, path)
    ensures a == b
  {
    forall k ensures Get(Live(a), k) == Get(Live(b), k) {
      LiveIsLookup(a, k);
      LiveIsLookup(b, k);
    }
    SameLookups(Live(a), Live(b));
  }

  // ---------------------------------------------------------------- iteration

  /** The keys of a map in the order a `BTreeMap` visits them. */
  ghost function SortedKeys(keys: set<string>): seq<string> {
    if keys == {} then [] else [Least(keys)] + SortedKeys(keys - {Least(keys)})
  }

  /** The entries of a plain map in path order. */
  ghost function Listing(live: map<string, Entry>): seq<Entry> {
    var keys := SortedKeys(live.Keys);
    SortedKeysFacts(live.Keys);
    seq(|keys|, i requires 0 <= i < |keys| => live[keys[i]])
  }

  lemma {:induction false} SortedKeysFacts(keys: set<string>)
    ensures forall i :: 0 <= i < |SortedKeys(keys)| ==> SortedKeys(keys)[i] in keys
    ensures forall k :: k in keys ==> k in SortedKeys(keys)
    ensures forall i, j :: 0 <= i < j < |SortedKeys(keys)| ==> StringLt(SortedKeys(keys)[i], SortedKeys(keys)[j])
    ensures |SortedKeys(keys)| == |keys|
  {
    if keys != {} {
      SortedKeysFacts(keys - {Least(keys)});
    }
  }

  function Unshadowed(base: seq<Entry>, shadow: Changes): seq<Entry> {
    if base == [] then []
    else (if base[0].path in shadow then [] else [base[0]]) + Unshadowed(base[1..], shadow)
  }

  function Present(values: seq<Option<Entry>>): seq<Entry> {
    if values == [] then []
    else (if values[0].Some? then [values[0].value] else []) + Present(values[1..])
  }

  function Merge(a: seq<Entry>, b: seq<Entry>): seq<Entry>
    decreases |a| + |b|
  {
    if a == [] then b
    else if b == [] then a
    else if StringLt(a[0].path, b[0].path) then [a[0]] + Merge(a[1..], b)
    else [b[0]] + Merge(a, b[1..])
  }

  function Pending(entry: Option<Entry>): seq<Entry> {
    if entry.Some? then [entry.value] else []
  }

  class FileIter {
    var base: seq<Entry>
    var changes: seq<Option<Entry>>
    const shadow: Changes
    var pendingBase: Option<Entry>
    var pendingDelta: Option<Entry>
    var remaining: nat

    function FromBase(): seq<Entry>
      reads this
    {
      Pending(pendingBase) + Unshadowed(base, shadow)
    }

    function FromDelta(): seq<Entry>
      reads this
    {
      Pending(pendingDelta) + Present(changes)
    }

    /** The entries still to be visited. */
    function Rest(): seq<Entry>
      reads this
    {
      Merge(FromBase(), FromDelta())
    }

    predicate Valid()
      reads this
    {
      remaining == |FromBase()| + |FromDelta()|
    }

    /** `values` are the overlay's values in key order. */
    constructor (list: IndexedFileList, values: seq<Option<Entry>>)
      requires WellFormed(list) && values == DeltaValues(list.changes)
      ensures Valid() && remaining == list.count
      ensures Rest() == Listing(Live(list))
    {
      base, changes, shadow := list.base, values, list.changes;
      pendingBase, pendingDelta := None, None;
      remaining := list.count;
      new;
      IterationIsListing(list);
      assert FromBase() == Unshadowed(list.base, list.changes);
      assert FromDelta() == Present(values);
    }

    /** `self.base.find(..)` when no base entry is pending. */
    method FillBase()
      modifies this
      ensures FromBase() == old(FromBase()) && (pendingBase.None? ==> FromBase() == [])
      ensures changes == old(changes) && pendingDelta == old(pendingDelta) && remaining == old(remaining)
    {
      if pendingBase.None? {
        while base != [] && base[0].path in shadow
          invariant Unshadowed(base, shadow) == old(Unshadowed(base, shadow))
          invariant pendingBase == old(pendingBase) && pendingDelta == old(pendingDelta)
          invariant changes == old(changes) && remaining == old(remaining)
          decreases |base|
        {
          base := base[1..];
        }
        if base != [] {
          pendingBase := Some(base[0]);
          base := base[1..];
        }
      }
    }

    /** `self.changes.find_map(..)` when no overlay entry is pending. */
    method FillDelta()
      modifies this
      ensures FromDelta() == old(FromDelta()) && (pendingDelta.None? ==> FromDelta() == [])
      ensures base == old(base) && pendingBase == old(pendingBase) && remaining == old(remaining)
    {
      if pendingDelta.None? {
        while changes != [] && changes[0].None?
          invariant Present(changes) == old(Present(changes))
          invariant pendingBase == old(pendingBase) && pendingDelta == old(pendingDelta)
          invariant base == old(base) && remaining == old(remaining)
          decreases |changes|
        {
          changes := changes[1..];
        }
        if changes != [] {
          pendingDelta := changes[0];
          changes := changes[1..];
        }
      }
    }

    method Next() returns (out: Option<Entry>)
      requires Valid()
      modifies this
      ensures Valid()
      ensures old(Rest()) == Pending(out) + Rest()
      ensures out.None? ==> Rest() == []
      ensures remaining == |Rest()|
    {
      FillBase();
      FillDelta();
      ghost var a, b := FromBase(), FromDelta();
      if pendingBase.Some? && pendingDelta.Some? && StringLt(pendingBase.value.path, pendingDelta.value.path) {
        out := pendingBase;
        pendingBase := None;
        assert FromBase() == a[1..] && FromDelta() == b;
      } else if pendingDelta.Some? {
        out := pendingDelta;
        pendingDelta := None;
        assert FromBase() == a && FromDelta() == b[1..];
      } else if pendingBase.Some? {
        out := pendingBase;
        pendingBase := None;
        assert FromBase() == a[1..] && FromDelta() == b;
      } else {
        out := None;
      }
      if out.Some? {
        remaining := remaining - 1;
      }
      MergeLength(FromBase(), FromDelta());
    }
  }

  lemma {:induction false} MergeLength(a: seq<Entry>, b: seq<Entry>)
    ensures |Merge(a, b)| == |a| + |b|
    decreases |a| + |b|
  {
    if a != [] && b != [] {
      if StringLt(a[0].path, b[0].path) {
        MergeLength(a[1..], b);
      } else {
        MergeLength(a, b[1..]);
      }
    }
  }

  ghost function DeltaValues(changes: Changes): seq<Option<Entry>> {
    SortedKeysFacts(changes.Keys);
    var keys := SortedKeys(changes.Keys);
    seq(|keys|, i requires 0 <= i < |keys| => changes[keys[i]])
  }

  lemma {:induction false} UnshadowedFacts(base: seq<Entry>, shadow: Changes)
    requires Ascending(base)
    ensures Ascending(Unshadowed(base, shadow))
    ensures forall e :: e in Unshadowed(base, shadow) <==> e in base && e.path !in shadow
  {
    if base != [] {
      UnshadowedFacts(base[1..], shadow);
      assert base == [base[0]] + base[1..];
    }
  }

  lemma {:induction false} PresentFacts(values: seq<Option<Entry>>)
    requires forall i, j :: 0 <= i < j < |values| && values[i].Some? && values[j].Some? ==>
               StringLt(values[i].value.path, values[j].value.path)
    ensures Ascending(Present(values))
    ensures forall e :: e in Present(values) <==> Some(e) in values
  {
    if values != [] {
      PresentFacts(values[1..]);
      assert values == [values[0]] + values[1..];
      forall e | e in Present(values[1..]) && values[0].Some? ensures StringLt(values[0].value.path, e.path) {
        assert Some(e) in values[1..];
        var j :| 0 <= j < |values[1..]| && values[1..][j] == Some(e);
        assert values[j + 1] == Some(e);
      }
    }
  }

  lemma {:induction false} MergeMembers(a: seq<Entry>, b: seq<Entry>)
    ensures forall e :: e in Merge(a, b) <==> e in a || e in b
    decreases |a| + |b|
  {
    if a != [] && b != [] {
      assert a == [a[0]] + a[1..] && b == [b[0]] + b[1..];
      if StringLt(a[0].path, b[0].path) {
        MergeMembers(a[1..], b);
      } else {
        MergeMembers(a, b[1..]);
      }
    }
  }

  ghost predicate Apart(a: seq<Entry>, b: seq<Entry>) {
    forall x, y :: x in a && y in b ==> x.path != y.path
  }

  lemma {:induction false} MergeAscending(a: seq<Entry>, b: seq<Entry>)
    requires Ascending(a) && Ascending(b) && Apart(a, b)
    ensures Ascending(Merge(a, b))
    decreases |a| + |b|
  {
    if a != [] && b != [] {
      StringLeTotal(a[0].path, b[0].path);
      assert a[0] in a && b[0] in b;
      if StringLt(a[0].path, b[0].path) {
        MergeAscending(a[1..], b);
        MergeMembers(a[1..], b);
        forall e | e in Merge(a[1..], b) ensures StringLt(a[0].path, e.path) {
          HeadFirst(a, b, e);
        }
      } else {
        MergeAscending(a, b[1..]);
        MergeMembers(a, b[1..]);
        forall e | e in Merge(a, b[1..]) ensures StringLt(b[0].path, e.path) {
          HeadFirst(b, a, e);
        }
      }
    }
  }

  lemma HeadFirst(a: seq<Entry>, b: seq<Entry>, e: Entry)
    requires Ascending(a) && Ascending(b) && a != [] && b != []
    requires StringLt(a[0].path, b[0].path)
    requires e in a[1..] || e in b
    ensures StringLt(a[0].path, e.path)
  {
    if e in a[1..] {
      var i :| 0 <= i < |a[1..]| && a[1..][i] == e;
      assert StringLt(a[0].path, a[i + 1].path);
    } else {
      HeadLeast(b, a, e);
    }
  }

  lemma HeadLeast(a: seq<Entry>, b: seq<Entry>, e: Entry)
    requires Ascending(a) && a != [] && b != [] && e in a
    ensures e != a[0] ==> StringLt(a[0].path, e.path)
    ensures StringLt(b[0].path, a[0].path) ==> StringLt(b[0].path, e.path)
  {
    var i :| 0 <= i < |a| && a[i] == e;
    if i > 0 && StringLt(b[0].path, a[0].path) {
      StringLeTransitive(b[0].path, a[0].path, e.path);
      StringLeTotal(b[0].path, a[0].path);
      StringLeTotal(a[0].path, e.path);
    }
  }

  lemma EmptyTogether(s: seq<Entry>, t: seq<Entry>)
    requires forall e :: e in s <==> e in t
    ensures s == [] <==> t == []
  {
    if s != [] {
      assert s[0] in t;
    }
    if t != [] {
      assert t[0] in s;
    }
  }

  lemma {:induction false} AscendingUnique(s: seq<Entry>, t: seq<Entry>)
    requires Ascending(s) && Ascending(t)
    requires forall e :: e in s <==> e in t
    ensures s == t
  {
    EmptyTogether(s, t);
    if s != [] {
      assert s[0] in s && t[0] in t;
      HeadLeast(s, s, t[0]);
      HeadLeast(t, t, s[0]);
      StringLeTotal(s[0].path, t[0].path);
      assert s == [s[0]] + s[1..] && t == [t[0]] + t[1..];
      assert s[0] == t[0];
      assert s[0] !in s[1..] && t[0] !in t[1..];
      forall e ensures e in s[1..] <==> e in t[1..] {
        assert e in s <==> e == s[0] || e in s[1..];
        assert e in t <==> e == t[0] || e in t[1..];
      }
      AscendingUnique(s[1..], t[1..]);
    }
  }

  lemma ListingFacts(live: map<string, Entry>)
    requires WellKeyed(live)
    ensures Ascending(Listing(live))
    ensures |Listing(live)| == |live|
    ensures forall e :: e in Listing(live) <==> Get(live, e.path) == Some(e)
  {
    SortedKeysFacts(live.Keys);
    var keys := SortedKeys(live.Keys);
    assert |live| == |live.Keys|;
    forall e ensures e in Listing(live) <==> Get(live, e.path) == Some(e) {
      if Get(live, e.path) == Some(e) {
        assert e.path in keys;
        var i :| 0 <= i < |keys| && keys[i] == e.path;
        assert Listing(live)[i] == e;
      }
    }
  }

  lemma DeltaValueKeyed(list: IndexedFileList, i: nat)
    requires WellFormed(list) && i < |DeltaValues(list.changes)| && DeltaValues(list.changes)[i].Some?
    ensures i < |SortedKeys(list.changes.Keys)|
    ensures DeltaValues(list.changes)[i].value.path == SortedKeys(list.changes.Keys)[i]
  {
    SortedKeysFacts(list.changes.Keys);
    LiveIsLookup(list, SortedKeys(list.changes.Keys)[i]);
  }

  lemma DeltaEntries(list: IndexedFileList)
    requires WellFormed(list)
    ensures Ascending(Present(DeltaValues(list.changes)))
    ensures forall e ::
      e in Present(DeltaValues(list.changes)) <==> e.path in list.changes && list.changes[e.path] == Some(e)
  {
    var keys, values := SortedKeys(list.changes.Keys), DeltaValues(list.changes);
    SortedKeysFacts(list.changes.Keys);
    forall i | 0 <= i < |values| && values[i].Some? ensures values[i].value.path == keys[i] {
      DeltaValueKeyed(list, i);
    }
    PresentFacts(values);
    forall e ensures Some(e) in values <==> e.path in list.changes && list.changes[e.path] == Some(e) {
      if e.path in list.changes && list.changes[e.path] == Some(e) {
        assert e.path in keys;
        var i :| 0 <= i < |keys| && keys[i] == e.path;
        assert values[i] == Some(e);
      }
    }
  }

  lemma {:induction false} AscendingLookup(base: seq<Entry>, e: Entry)
    requires Ascending(base) && e in base
    ensures BaseEntry(base, e.path) == Some(e)
  {
    HeadLeast(base, base, e);
    if base[0] != e {
      assert base == [base[0]] + base[1..];
      AscendingLookup(base[1..], e);
    }
  }

  /** The merge visits each live path once, in path order. */
  lemma IterationIsListing(list: IndexedFileList)
    requires WellFormed(list)
    ensures Merge(Unshadowed(list.base, list.changes), Present(DeltaValues(list.changes))) == Listing(Live(list))
    ensures |Unshadowed(list.base, list.changes)| + |Present(DeltaValues(list.changes))| == list.count
  {
    var a, b := Unshadowed(list.base, list.changes), Present(DeltaValues(list.changes));
    UnshadowedFacts(list.base, list.changes);
    DeltaEntries(list);
    assert Apart(a, b);
    MergeMembers(a, b);
    MergeAscending(a, b);
    ListingFacts(Live(list));
    MergeLength(a, b);
    forall e ensures e in Merge(a, b) <==> e in Listing(Live(list)) {
      LiveIsLookup(list, e.path);
      BaseEntryFacts(list.base, e.path);
      if e in list.base {
        AscendingLookup(list.base, e);
      }
    }
    AscendingUnique(Merge(a, b), Listing(Live(list)));
  }
}
