/**
 The dirty-overlay snapshot (candidate_service.rs 370-595): facts of the open files
 indexed by name, by record and by path, each list sorted once at the end.
 */
module Overlay {
  import opened Basics
  import opened Ordering

  datatype Family = CFamily | Go | TypeScript

  datatype Anchor = Anchor(path: string, name: string, start: nat, fingerprint: string, body: string)

  datatype Declaration = Declaration(name: string, start: nat, fingerprint: string, body: string)

  datatype Record = Record(
    displayName: string, tagName: Option<string>, typedefName: Option<string>, key: string, start: nat, body: string)

  datatype Member = Member(name: string, recordKey: string, start: nat, kind: string, signature: string)

  datatype Alias = Alias(alias: string, start: nat, fingerprint: string, body: string)

  datatype File = File(
    path: string, family: Family, anchors: seq<Anchor>, declarations: seq<Declaration>, records: seq<Record>,
    members: seq<Member>, aliases: seq<Alias>, fallback: seq<string>)

  /** A fact together with the file it comes from. */
  datatype At<T> = At(path: string, fact: T)

  ghost predicate DistinctPaths(files: seq<File>) {
    forall i, j :: 0 <= i < j < |files| ==> files[i].path != files[j].path
  }

  // ---------------------------------------------------------------- what one file contributes

  function Pairs<T, K, V>(items: seq<T>, key: T -> K, value: T -> V): seq<(K, V)> {
    if items == [] then [] else [(key(items[0]), value(items[0]))] + Pairs(items[1..], key, value)
  }

  function AnchorPairs(f: File): seq<(string, Anchor)> {
    Pairs(f.anchors, (a: Anchor) => a.name, (a: Anchor) => a)
  }

  function DeclarationPairs(f: File): seq<(string, At<Declaration>)> {
    Pairs(f.declarations, (d: Declaration) => d.name, (d: Declaration) => At(f.path, d))
  }

  function AliasPairs(f: File): seq<(string, At<Alias>)> {
    Pairs(f.aliases, (a: Alias) => a.alias, (a: Alias) => At(f.path, a))
  }

  function RecordPathPairs(f: File): seq<(string, At<Record>)> {
    Pairs(f.records, (r: Record) => f.path, (r: Record) => At(f.path, r))
  }

  function NameKey(n: string): Key { [Text(n)] }

  function AllNamesOf(r: Record): seq<string> {
    [r.displayName] + (if r.tagName.Some? then [r.tagName.value] else [])
    + (if r.typedefName.Some? then [r.typedefName.value] else [])
  }

  /** Display, tag and typedef name, sorted, each once. */
  function NamesOf(r: Record): seq<string> {
    DedupNeighbours(StableSort(AllNamesOf(r), NameKey))
  }

  function NamePairs(names: seq<string>, fact: At<Record>): seq<(string, At<Record>)> {
    Pairs(names, (n: string) => n, (n: string) => fact)
  }

  function RecordNamePairsOf(path: string, records: seq<Record>): seq<(string, At<Record>)> {
    if records == [] then []
    else NamePairs(NamesOf(records[0]), At(path, records[0])) + RecordNamePairsOf(path, records[1..])
  }

  function RecordNamePairs(f: File): seq<(string, At<Record>)> { RecordNamePairsOf(f.path, f.records) }

  predicate IsNamed(r: Record, owner: string) {
    r.displayName == owner || r.tagName == Some(owner) || r.typedefName == Some(owner)
  }

  function RecordsNamed(records: seq<Record>, owner: string): seq<Record> {
    if records == [] then []
    else (if IsNamed(records[0], owner) then [records[0]] else []) + RecordsNamed(records[1..], owner)
  }

  const OWNER := "owner:"

  /** A member that names its owner goes to the only record of the file with that name. */
  function RecordKeyOf(records: seq<Record>, m: Member): string {
    if |OWNER| <= |m.recordKey| && m.recordKey[..|OWNER|] == OWNER then
      var matches := RecordsNamed(records, m.recordKey[|OWNER|..]);
      if |matches| == 1 then matches[0].key else m.recordKey
    else m.recordKey
  }

  function MemberPairs(f: File): seq<((string, string), Member)> {
    Pairs(f.members, (m: Member) => (f.path, RecordKeyOf(f.records, m)), (m: Member) => m)
  }

  function MemberFacts(f: File): seq<(int, At<Member>)> {
    Pairs(f.members, (m: Member) => 0, (m: Member) => At(f.path, m))
  }

  // ---------------------------------------------------------------- sort keys

  function AnchorKey(a: Anchor): Key { [Text(a.path), Num(a.start), Text(a.fingerprint)] }

  function DeclarationKey(d: At<Declaration>): Key { [Text(d.path), Num(d.fact.start), Text(d.fact.fingerprint)] }

  function RecordKey(r: At<Record>): Key { [Text(r.path), Num(r.fact.start), Text(r.fact.key)] }

  function RecordInFileKey(r: At<Record>): Key { [Num(r.fact.start), Text(r.fact.key)] }

  function MemberKey(m: Member): Key { [Num(m.start), Text(m.name), Text(m.kind)] }

  function MemberPrefixKey(m: At<Member>): Key {
    [Text(AsciiLower(m.fact.name)), Text(m.fact.name), Text(m.path), Num(m.fact.start), Text(m.fact.kind),
     Text(m.fact.signature)]
  }

  function AliasKey(a: At<Alias>): Key { [Text(a.path), Num(a.fact.start), Text(a.fact.fingerprint)] }

  // ---------------------------------------------------------------- indexes

  /** The values filed under `k`, in order. */
  function ValuesOf<K(==), V>(pairs: seq<(K, V)>, k: K): seq<V> {
    if pairs == [] then [] else (if pairs[0].0 == k then [pairs[0].1] else []) + ValuesOf(pairs[1..], k)
  }

  function AllPairs<K, V>(files: seq<File>, pairsOf: File -> seq<(K, V)>): seq<(K, V)> {
    if files == [] then [] else pairsOf(files[0]) + AllPairs(files[1..], pairsOf)
  }

  /** One finished list of an index. */
  function Indexed<K(==), V>(files: seq<File>, pairsOf: File -> seq<(K, V)>, key: V -> Key, k: K): seq<V> {
    StableSort(ValuesOf(AllPairs(files, pairsOf), k), key)
  }

  lemma {:induction false} ValuesOfConcat<K, V>(a: seq<(K, V)>, b: seq<(K, V)>, k: K)
    ensures ValuesOf(a + b, k) == ValuesOf(a, k) + ValuesOf(b, k)
  {
    if a == [] {
      assert a + b == b;
    } else {
      assert (a + b)[0] == a[0] && (a + b)[1..] == a[1..] + b;
      ValuesOfConcat(a[1..], b, k);
      assert ValuesOf(a + b, k) == (if a[0].0 == k then [a[0].1] else []) + (ValuesOf(a[1..], k) + ValuesOf(b, k));
    }
  }

  lemma {:induction false} AllPairsConcat<K, V>(a: seq<File>, b: seq<File>, pairsOf: File -> seq<(K, V)>)
    ensures AllPairs(a + b, pairsOf) == AllPairs(a, pairsOf) + AllPairs(b, pairsOf)
  {
    if a == [] {
      assert a + b == b;
    } else {
      assert (a + b)[0] == a[0] && (a + b)[1..] == a[1..] + b;
      AllPairsConcat(a[1..], b, pairsOf);
    }
  }

  // ---------------------------------------------------------------- order does not matter

  /** The file with that path. */
  function FileAt(files: seq<File>, path: string): Option<File> {
    if files == [] then None else if files[0].path == path then Some(files[0]) else FileAt(files[1..], path)
  }

  lemma {:induction false} FileAtFacts(files: seq<File>, path: string)
    ensures FileAt(files, path).Some? ==> FileAt(files, path).value in files && FileAt(files, path).value.path == path
    ensures FileAt(files, path).None? ==> forall f :: f in files ==> f.path != path
  {
    if files != [] && files[0].path != path {
      FileAtFacts(files[1..], path);
    }
  }

  lemma SamePathSameFile(files: seq<File>, f: File, g: File)
    requires DistinctPaths(files) && f in files && g in files && f.path == g.path
    ensures f == g
  {
    var i :| 0 <= i < |files| && files[i] == f;
    var j :| 0 <= j < |files| && files[j] == g;
    assert i == j;
  }

  lemma SameMembers(files: seq<File>, other: seq<File>)
    requires multiset(files) == multiset(other)
    ensures forall f :: f in files <==> f in other
  {
    assert forall f :: f in files <==> f in multiset(files);
    assert forall f :: f in other <==> f in multiset(other);
  }

  /** Looking a file up by its path does not depend on the order of the files. */
  lemma FileAtIsOrderFree(files: seq<File>, other: seq<File>, path: string)
    requires DistinctPaths(files) && multiset(files) == multiset(other)
    ensures FileAt(files, path) == FileAt(other, path)
  {
    FileAtFacts(files, path);
    FileAtFacts(other, path);
    SameMembers(files, other);
    var a, b := FileAt(files, path), FileAt(other, path);
    if a.Some? && b.Some? {
      SamePathSameFile(files, a.value, b.value);
    }
  }

  /** Every value a file files under `k` has a sort key that leads back to the file. */
  ghost predicate LeadsHome<K, V>(
    files: seq<File>, pairsOf: File -> seq<(K, V)>, key: V -> Key, home: Key -> string, k: K)
  {
    forall f :: f in files ==> Homes(ValuesOf(pairsOf(f), k), key, home, f.path)
  }

  ghost predicate Homes<V>(values: seq<V>, key: V -> Key, home: Key -> string, path: string) {
    forall i :: 0 <= i < |values| ==> home(key(values[i])) == path
  }

  lemma {:induction false} NotMyRun<V>(values: seq<V>, key: V -> Key, home: Key -> string, path: string, run: Key)
    requires Homes(values, key, home, path) && home(run) != path
    ensures Select(values, key, run) == []
  {
    if values != [] {
      NotMyRun(values[1..], key, home, path, run);
    }
  }

  /** The values of equal sort key all come from the one file the key leads to. */
  lemma {:induction false} RunOfOneFile<K, V>(files: seq<File>, pairsOf: File -> seq<(K, V)>, key: V -> Key,
                                              home: Key -> string, k: K, run: Key)
    requires DistinctPaths(files) && LeadsHome(files, pairsOf, key, home, k)
    ensures var f := FileAt(files, home(run));
      Select(ValuesOf(AllPairs(files, pairsOf), k), key, run)
      == if f.Some? then Select(ValuesOf(pairsOf(f.value), k), key, run) else []
  {
    if files != [] {
      var first, rest := files[0], files[1..];
      RunOfOneFile(rest, pairsOf, key, home, k, run);
      ValuesOfConcat(pairsOf(first), AllPairs(rest, pairsOf), k);
      SelectConcat(ValuesOf(pairsOf(first), k), ValuesOf(AllPairs(rest, pairsOf), k), key, run);
      if first.path == home(run) {
        FileAtFacts(rest, home(run));
      } else {
        NotMyRun(ValuesOf(pairsOf(first), k), key, home, first.path, run);
      }
    }
  }

  /** An index whose sort key leads back to the file does not depend on the order of the files. */
  lemma IndexIsOrderFree<K, V>(files: seq<File>, other: seq<File>, pairsOf: File -> seq<(K, V)>, key: V -> Key,
                               home: Key -> string, k: K)
    requires DistinctPaths(files) && DistinctPaths(other) && multiset(files) == multiset(other)
    requires LeadsHome(files, pairsOf, key, home, k)
    ensures Indexed(files, pairsOf, key, k) == Indexed(other, pairsOf, key, k)
  {
    var s, t := ValuesOf(AllPairs(files, pairsOf), k), ValuesOf(AllPairs(other, pairsOf), k);
    SameMembers(files, other);
    forall run ensures Select(s, key, run) == Select(t, key, run) {
      RunOfOneFile(files, pairsOf, key, home, k, run);
      RunOfOneFile(other, pairsOf, key, home, k, run);
      FileAtIsOrderFree(files, other, home(run));
    }
    SameRunsSameSort(s, t, key);
  }

  lemma PermutedPaths(files: seq<File>, other: seq<File>)
    requires DistinctPaths(files) && multiset(files) == multiset(other)
    ensures DistinctPaths(other)
  {
    PathsFromCounts(files, other);
  }

  lemma PathIdentifies(files: seq<File>)
    requires DistinctPaths(files)
    ensures forall f, g :: f in files && g in files && f.path == g.path ==> f == g
  {
    forall f, g | f in files && g in files && f.path == g.path ensures f == g {
      SamePathSameFile(files, f, g);
    }
  }

  lemma {:induction false} PathsFromCounts(files: seq<File>, other: seq<File>)
    requires DistinctPaths(files) && multiset(other) <= multiset(files)
    ensures DistinctPaths(other)
    decreases |other|
  {
    if other != [] {
      var f, rest := other[0], other[1..];
      assert other == [f] + rest;
      PathsFromCounts(files, rest);
      OncePerFile(files, f);
      PathIdentifies(files);
      assert multiset(other)[f] == multiset(rest)[f] + 1 && f !in multiset(rest);
      forall j | 0 <= j < |rest| ensures rest[j].path != f.path {
        assert rest[j] in multiset(rest) && rest[j] in multiset(files) && f in multiset(files);
      }
    }
  }

  lemma {:induction false} OncePerFile(files: seq<File>, f: File)
    requires DistinctPaths(files)
    ensures multiset(files)[f] <= 1
  {
    if files != [] {
      assert files == [files[0]] + files[1..];
      OncePerFile(files[1..], f);
      if files[0] == f {
        assert f !in files[1..];
      }
    }
  }

  // ---------------------------------------------------------------- the snapshot

  function Lookup<K, V>(index: map<K, seq<V>>, k: K): seq<V> {
    if k in index then index[k] else []
  }

  ghost predicate Holds<K(!new), V>(index: map<K, seq<V>>, pairs: seq<(K, V)>) {
    forall k :: Lookup(index, k) == ValuesOf(pairs, k)
  }

  /** File every pair under its key, after what is there. */
  method PushPairs<K(==,!new), V>(before: map<K, seq<V>>, pairs: seq<(K, V)>, ghost done: seq<(K, V)>)
    returns (index: map<K, seq<V>>)
    requires Holds(before, done)
    ensures Holds(index, done + pairs)
  {
    index := before;
    var i := 0;
    assert done + pairs[..0] == done;
    while i < |pairs|
      invariant i <= |pairs| && Holds(index, done + pairs[..i])
    {
      PushOne(index, done, pairs, i);
      index := index[pairs[i].0 := Lookup(index, pairs[i].0) + [pairs[i].1]];
      i := i + 1;
    }
    assert pairs[..i] == pairs;
  }

  lemma PushOne<K(!new), V>(index: map<K, seq<V>>, done: seq<(K, V)>, pairs: seq<(K, V)>, i: nat)
    requires i < |pairs| && Holds(index, done + pairs[..i])
    ensures Holds(index[pairs[i].0 := Lookup(index, pairs[i].0) + [pairs[i].1]], done + pairs[..i + 1])
  {
    var p := pairs[i];
    var after := index[p.0 := Lookup(index, p.0) + [p.1]];
    assert done + pairs[..i + 1] == (done + pairs[..i]) + [p];
    forall k ensures Lookup(after, k) == ValuesOf(done + pairs[..i + 1], k) {
      ValuesOfConcat(done + pairs[..i], [p], k);
      assert [p][1..] == [];
      assert Lookup(index, k) == ValuesOf(done + pairs[..i], k);
    }
  }

  /** Sort every list of an index. */
  method SortValues<K(==,!new), V>(before: map<K, seq<V>>, key: V -> Key) returns (index: map<K, seq<V>>)
    ensures forall k :: Lookup(index, k) == StableSort(Lookup(before, k), key)
  {
    index := before;
    var rest := before.Keys;
    while rest != {}
      invariant index.Keys == before.Keys && rest <= before.Keys
      invariant forall k :: k in before ==> index[k] == if k in rest then before[k] else StableSort(before[k], key)
      decreases rest
    {
      var k :| k in rest;
      index := index[k := StableSort(index[k], key)];
      rest := rest - {k};
    }
  }

  /** An index of the files, finished. */
  ghost predicate IsIndex<K(!new), V>(
    index: map<K, seq<V>>, files: seq<File>, pairsOf: File -> seq<(K, V)>, key: V -> Key)
  {
    forall k :: Lookup(index, k) == Indexed(files, pairsOf, key, k)
  }

  /** Families by path, one entry per file. */
  ghost predicate FamiliesFor(families: map<string, Family>, files: seq<File>) {
    (forall f :: f in files ==> f.path in families && families[f.path] == f.family)
    && (forall p :: p in families ==> exists f :: f in files && f.path == p)
  }

  lemma AllPairsSnoc<K, V>(done: seq<File>, f: File, pairsOf: File -> seq<(K, V)>)
    ensures AllPairs(done + [f], pairsOf) == AllPairs(done, pairsOf) + pairsOf(f)
  {
    AllPairsConcat(done, [f], pairsOf);
    assert [f][1..] == [];
  }

  lemma {:induction false} PairsValues<T, K, V>(items: seq<T>, key: T -> K, value: T -> V, k: K)
    requires forall i :: 0 <= i < |items| ==> key(items[i]) == k
    ensures ValuesOf(Pairs(items, key, value), k) == seq(|items|, i requires 0 <= i < |items| => value(items[i]))
  {
    if items != [] {
      PairsValues(items[1..], key, value, k);
    }
  }

  lemma {:induction false} PairsNoValues<T, K, V>(items: seq<T>, key: T -> K, value: T -> V, k: K)
    requires forall i :: 0 <= i < |items| ==> key(items[i]) != k
    ensures ValuesOf(Pairs(items, key, value), k) == []
  {
    if items != [] {
      PairsNoValues(items[1..], key, value, k);
    }
  }

  lemma {:induction false} NoRecordsYet(done: seq<File>, path: string)
    requires forall f :: f in done ==> f.path != path
    ensures ValuesOf(AllPairs(done, RecordPathPairs), path) == []
  {
    if done != [] {
      var f := done[0];
      NoRecordsYet(done[1..], path);
      ValuesOfConcat(RecordPathPairs(f), AllPairs(done[1..], RecordPathPairs), path);
      PairsNoValues(f.records, (r: Record) => f.path, (r: Record) => At(f.path, r), path);
    }
  }

  function FactsOf(facts: seq<At<Record>>): seq<Record> {
    seq(|facts|, i requires 0 <= i < |facts| => facts[i].fact)
  }

  /** While a file is added, the records filed under its path are its own. */
  lemma OwnRecords(done: seq<File>, f: File)
    requires forall g :: g in done ==> g.path != f.path
    ensures FactsOf(ValuesOf(AllPairs(done, RecordPathPairs) + RecordPathPairs(f), f.path)) == f.records
  {
    NoRecordsYet(done, f.path);
    ValuesOfConcat(AllPairs(done, RecordPathPairs), RecordPathPairs(f), f.path);
    PairsValues(f.records, (r: Record) => f.path, (r: Record) => At(f.path, r), f.path);
  }

  lemma NextFile(files: seq<File>, i: nat)
    requires DistinctPaths(files) && i < |files|
    ensures files[..i + 1] == files[..i] + [files[i]]
    ensures forall g :: g in files[..i] ==> g.path != files[i].path
  {
  }

  class CandidateOverlaySnapshot {
    var familyByPath: map<string, Family>
    var callableByName: map<string, seq<Anchor>>
    var declarationByName: map<string, seq<At<Declaration>>>
    var recordByName: map<string, seq<At<Record>>>
    var recordsByPath: map<string, seq<At<Record>>>
    var membersByRecordKey: map<(string, string), seq<Member>>
    var memberPrefixIndex: seq<At<Member>>
    var aliasByName: map<string, seq<At<Alias>>>

    /** Before the sorts: every index holds what the files so far contribute, in their order. */
    ghost predicate Gathered(files: seq<File>)
      reads this
    {
      FamiliesFor(familyByPath, files)
      && Holds(callableByName, AllPairs(files, AnchorPairs))
      && Holds(declarationByName, AllPairs(files, DeclarationPairs))
      && Holds(recordByName, AllPairs(files, RecordNamePairs))
      && Holds(recordsByPath, AllPairs(files, RecordPathPairs))
      && Holds(membersByRecordKey, AllPairs(files, MemberPairs))
      && memberPrefixIndex == ValuesOf(AllPairs(files, MemberFacts), 0)
      && Holds(aliasByName, AllPairs(files, AliasPairs))
    }

    /** Finished: every list of every index is sorted. */
    ghost predicate SnapshotOf(files: seq<File>)
      reads this
    {
      FamiliesFor(familyByPath, files)
      && IsIndex(callableByName, files, AnchorPairs, AnchorKey)
      && IsIndex(declarationByName, files, DeclarationPairs, DeclarationKey)
      && IsIndex(recordByName, files, RecordNamePairs, RecordKey)
      && IsIndex(recordsByPath, files, RecordPathPairs, RecordInFileKey)
      && IsIndex(membersByRecordKey, files, MemberPairs, MemberKey)
      && memberPrefixIndex == Indexed(files, MemberFacts, MemberPrefixKey, 0)
      && IsIndex(aliasByName, files, AliasPairs, AliasKey)
    }

    /** The open files come from a map keyed by path, in no particular order. */
    constructor (files: seq<File>)
      requires DistinctPaths(files)
      ensures SnapshotOf(files)
    {
      familyByPath, callableByName, declarationByName, recordByName := map[], map[], map[], map[];
      recordsByPath, membersByRecordKey, memberPrefixIndex, aliasByName := map[], map[], [], map[];
      new;
      AddFiles(files);
      SortLists(files);
    }

    method AddFiles(files: seq<File>)
      requires DistinctPaths(files) && Gathered([])
      modifies this
      ensures Gathered(files)
    {
      var i := 0;
      ghost var done: seq<File> := [];
      while i < |files|
        invariant i <= |files| && done == files[..i] && Gathered(done)
      {
        NextFile(files, i);
        AddFile(files[i], done);
        i, done := i + 1, done + [files[i]];
      }
      assert done == files;
    }

    method AddFile(f: File, ghost done: seq<File>)
      requires Gathered(done) && forall g :: g in done ==> g.path != f.path
      modifies this
      ensures Gathered(done + [f])
    {
      AddSymbols(f, done);
      AddRecords(f, done);
      AddMembers(f, done);
    }

    method AddSymbols(f: File, ghost done: seq<File>)
      requires Gathered(done) && forall g :: g in done ==> g.path != f.path
      modifies this`familyByPath, this`callableByName, this`declarationByName, this`aliasByName
      ensures FamiliesFor(familyByPath, done + [f])
      ensures Holds(callableByName, AllPairs(done + [f], AnchorPairs))
      ensures Holds(declarationByName, AllPairs(done + [f], DeclarationPairs))
      ensures Holds(aliasByName, AllPairs(done + [f], AliasPairs))
    {
      familyByPath := familyByPath[f.path := f.family];
      var declarations := PushFile(declarationByName, done, f, DeclarationPairs);
      var callables := PushFile(callableByName, done, f, AnchorPairs);
      var aliases := PushFile(aliasByName, done, f, AliasPairs);
      declarationByName, callableByName, aliasByName := declarations, callables, aliases;
    }

    method AddRecords(f: File, ghost done: seq<File>)
      requires Holds(recordByName, AllPairs(done, RecordNamePairs))
      requires Holds(recordsByPath, AllPairs(done, RecordPathPairs))
      modifies this`recordByName, this`recordsByPath
      ensures Holds(recordByName, AllPairs(done + [f], RecordNamePairs))
      ensures Holds(recordsByPath, AllPairs(done + [f], RecordPathPairs))
    {
      var recordPaths := PushFile(recordsByPath, done, f, RecordPathPairs);
      var recordNames := PushFile(recordByName, done, f, RecordNamePairs);
      recordsByPath, recordByName := recordPaths, recordNames;
    }

    /** Members go to the record their owner names among the records of the file. */
    method AddMembers(f: File, ghost done: seq<File>)
      requires forall g :: g in done ==> g.path != f.path
      requires Holds(recordsByPath, AllPairs(done + [f], RecordPathPairs))
      requires Holds(membersByRecordKey, AllPairs(done, MemberPairs))
      requires memberPrefixIndex == ValuesOf(AllPairs(done, MemberFacts), 0)
      modifies this`membersByRecordKey, this`memberPrefixIndex
      ensures Holds(membersByRecordKey, AllPairs(done + [f], MemberPairs))
      ensures memberPrefixIndex == ValuesOf(AllPairs(done + [f], MemberFacts), 0)
    {
      AllPairsSnoc(done, f, RecordPathPairs);
      AllPairsSnoc(done, f, MemberPairs);
      AllPairsSnoc(done, f, MemberFacts);
      OwnRecords(done, f);
      var records := FactsOf(Lookup(recordsByPath, f.path));
      assert records == f.records;
      var pairs := Pairs(f.members, (m: Member) => (f.path, RecordKeyOf(records, m)), (m: Member) => m);
      membersByRecordKey := PushPairs(membersByRecordKey, pairs, AllPairs(done, MemberPairs));
      ValuesOfConcat(AllPairs(done, MemberFacts), MemberFacts(f), 0);
      memberPrefixIndex := memberPrefixIndex + ValuesOf(MemberFacts(f), 0);
    }

    method SortLists(ghost files: seq<File>)
      requires Gathered(files)
      modifies this
      ensures SnapshotOf(files)
    {
      var callables := Finish(callableByName, files, AnchorPairs, AnchorKey);
      var declarations := Finish(declarationByName, files, DeclarationPairs, DeclarationKey);
      var recordNames := Finish(recordByName, files, RecordNamePairs, RecordKey);
      var recordPaths := Finish(recordsByPath, files, RecordPathPairs, RecordInFileKey);
      var members := Finish(membersByRecordKey, files, MemberPairs, MemberKey);
      var aliases := Finish(aliasByName, files, AliasPairs, AliasKey);
      callableByName, declarationByName, recordByName := callables, declarations, recordNames;
      recordsByPath, membersByRecordKey, aliasByName := recordPaths, members, aliases;
      memberPrefixIndex := StableSort(memberPrefixIndex, MemberPrefixKey);
    }
  }

  method PushFile<K(==,!new), V>(before: map<K, seq<V>>, ghost done: seq<File>, f: File, pairsOf: File -> seq<(K, V)>)
    returns (index: map<K, seq<V>>)
    requires Holds(before, AllPairs(done, pairsOf))
    ensures Holds(index, AllPairs(done + [f], pairsOf))
  {
    AllPairsSnoc(done, f, pairsOf);
    index := PushPairs(before, pairsOf(f), AllPairs(done, pairsOf));
  }

  method Finish<K(==,!new), V>(before: map<K, seq<V>>, ghost files: seq<File>, ghost pairsOf: File -> seq<(K, V)>,
                               key: V -> Key)
    returns (index: map<K, seq<V>>)
    requires Holds(before, AllPairs(files, pairsOf))
    ensures IsIndex(index, files, pairsOf, key)
  {
    index := SortValues(before, key);
  }

  // ---------------------------------------------------------------- what depends on the order, and what does not

  function FirstText(k: Key): string {
    if k != [] && k[0].Text? then k[0].s else ""
  }

  function ThirdText(k: Key): string {
    if |k| > 2 && k[2].Text? then k[2].s else ""
  }

  lemma {:induction false} PairsHome<T, K, V>(
    items: seq<T>, key: T -> K, value: T -> V, sort: V -> Key, home: Key -> string, path: string, k: K)
    requires forall i :: 0 <= i < |items| ==> home(sort(value(items[i]))) == path
    ensures Homes(ValuesOf(Pairs(items, key, value), k), sort, home, path)
  {
    if items != [] {
      PairsHome(items[1..], key, value, sort, home, path, k);
    }
  }

  lemma {:induction false} RecordNamesHome(path: string, records: seq<Record>, k: string)
    ensures Homes(ValuesOf(RecordNamePairsOf(path, records), k), RecordKey, FirstText, path)
  {
    if records != [] {
      var fact := At(path, records[0]);
      var own := NamePairs(NamesOf(records[0]), fact);
      RecordNamesHome(path, records[1..], k);
      PairsHome(NamesOf(records[0]), (n: string) => n, (n: string) => fact, RecordKey, FirstText, path, k);
      ValuesOfConcat(own, RecordNamePairsOf(path, records[1..]), k);
    }
  }

  /** The anchors of a file carry the file's own path. */
  ghost predicate AnchorsAtHome(files: seq<File>) {
    forall f :: f in files ==> forall i :: 0 <= i < |f.anchors| ==> f.anchors[i].path == f.path
  }

  /** The by-name indexes and the prefix index lead home: their sort keys name the file. */
  lemma NamesLeadHome(files: seq<File>, name: string)
    ensures AnchorsAtHome(files) ==> LeadsHome(files, AnchorPairs, AnchorKey, FirstText, name)
    ensures LeadsHome(files, DeclarationPairs, DeclarationKey, FirstText, name)
    ensures LeadsHome(files, RecordNamePairs, RecordKey, FirstText, name)
    ensures LeadsHome(files, AliasPairs, AliasKey, FirstText, name)
  {
    forall f | f in files
      ensures AnchorsAtHome(files) ==> Homes(ValuesOf(AnchorPairs(f), name), AnchorKey, FirstText, f.path)
      ensures Homes(ValuesOf(DeclarationPairs(f), name), DeclarationKey, FirstText, f.path)
      ensures Homes(ValuesOf(RecordNamePairs(f), name), RecordKey, FirstText, f.path)
      ensures Homes(ValuesOf(AliasPairs(f), name), AliasKey, FirstText, f.path)
    {
      if AnchorsAtHome(files) {
        PairsHome(f.anchors, (a: Anchor) => a.name, (a: Anchor) => a, AnchorKey, FirstText, f.path, name);
      }
      PairsHome(f.declarations, (d: Declaration) => d.name, (d: Declaration) => At(f.path, d),
                DeclarationKey, FirstText, f.path, name);
      RecordNamesHome(f.path, f.records, name);
      PairsHome(f.aliases, (a: Alias) => a.alias, (a: Alias) => At(f.path, a), AliasKey, FirstText, f.path, name);
    }
  }

  lemma PrefixLeadsHome(files: seq<File>)
    ensures LeadsHome(files, MemberFacts, MemberPrefixKey, ThirdText, 0)
  {
    forall f | f in files ensures Homes(ValuesOf(MemberFacts(f), 0), MemberPrefixKey, ThirdText, f.path) {
      PairsHome(f.members, (m: Member) => 0, (m: Member) => At(f.path, m), MemberPrefixKey, ThirdText, f.path, 0);
    }
  }

  /** An index whose filing key names the file holds one file's facts per list, whatever the order of the files. */
  lemma {:induction false} OnlyOneFile<K, V>(files: seq<File>, pairsOf: File -> seq<(K, V)>, path: string, k: K)
    requires DistinctPaths(files)
    requires forall f :: f in files && f.path != path ==> ValuesOf(pairsOf(f), k) == []
    ensures ValuesOf(AllPairs(files, pairsOf), k)
         == if FileAt(files, path).Some? then ValuesOf(pairsOf(FileAt(files, path).value), k) else []
  {
    if files != [] {
      OnlyOneFile(files[1..], pairsOf, path, k);
      ValuesOfConcat(pairsOf(files[0]), AllPairs(files[1..], pairsOf), k);
      FileAtFacts(files[1..], path);
    }
  }

  lemma FiledByPathIsOrderFree<K, V>(files: seq<File>, other: seq<File>, pairsOf: File -> seq<(K, V)>, key: V -> Key,
                                     path: string, k: K)
    requires DistinctPaths(files) && DistinctPaths(other) && multiset(files) == multiset(other)
    requires forall f :: f in files && f.path != path ==> ValuesOf(pairsOf(f), k) == []
    ensures Indexed(files, pairsOf, key, k) == Indexed(other, pairsOf, key, k)
  {
    SameMembers(files, other);
    OnlyOneFile(files, pairsOf, path, k);
    OnlyOneFile(other, pairsOf, path, k);
    FileAtIsOrderFree(files, other, path);
  }

  lemma PathsFileApart(files: seq<File>, path: string, recordKey: string)
    ensures forall f :: f in files && f.path != path ==>
      ValuesOf(RecordPathPairs(f), path) == [] && ValuesOf(MemberPairs(f), (path, recordKey)) == []
  {
    forall f | f in files && f.path != path
      ensures ValuesOf(RecordPathPairs(f), path) == [] && ValuesOf(MemberPairs(f), (path, recordKey)) == []
    {
      PairsNoValues(f.records, (r: Record) => f.path, (r: Record) => At(f.path, r), path);
      PairsNoValues(f.members, (m: Member) => (f.path, RecordKeyOf(f.records, m)), (m: Member) => m, (path, recordKey));
    }
  }

  /**
   The snapshot does not depend on the order of the files: for files with distinct paths,
   every permutation gives the same by-name, by-record, by-path and prefix sequences.
   */
  lemma SnapshotIsOrderFree(files: seq<File>, other: seq<File>, name: string, path: string, recordKey: string)
    requires DistinctPaths(files) && multiset(files) == multiset(other) && AnchorsAtHome(files)
    ensures Indexed(files, AnchorPairs, AnchorKey, name) == Indexed(other, AnchorPairs, AnchorKey, name)
    ensures Indexed(files, DeclarationPairs, DeclarationKey, name)
         == Indexed(other, DeclarationPairs, DeclarationKey, name)
    ensures Indexed(files, RecordNamePairs, RecordKey, name) == Indexed(other, RecordNamePairs, RecordKey, name)
    ensures Indexed(files, AliasPairs, AliasKey, name) == Indexed(other, AliasPairs, AliasKey, name)
    ensures Indexed(files, RecordPathPairs, RecordInFileKey, path)
         == Indexed(other, RecordPathPairs, RecordInFileKey, path)
    ensures Indexed(files, MemberPairs, MemberKey, (path, recordKey))
         == Indexed(other, MemberPairs, MemberKey, (path, recordKey))
    ensures Indexed(files, MemberFacts, MemberPrefixKey, 0) == Indexed(other, MemberFacts, MemberPrefixKey, 0)
  {
    PermutedPaths(files, other);
    NamesLeadHome(files, name);
    PrefixLeadsHome(files);
    PathsFileApart(files, path, recordKey);
    IndexIsOrderFree(files, other, AnchorPairs, AnchorKey, FirstText, name);
    IndexIsOrderFree(files, other, DeclarationPairs, DeclarationKey, FirstText, name);
    IndexIsOrderFree(files, other, RecordNamePairs, RecordKey, FirstText, name);
    IndexIsOrderFree(files, other, AliasPairs, AliasKey, FirstText, name);
    IndexIsOrderFree(files, other, MemberFacts, MemberPrefixKey, ThirdText, 0);
    FiledByPathIsOrderFree(files, other, RecordPathPairs, RecordInFileKey, path, path);
    FiledByPathIsOrderFree(files, other, MemberPairs, MemberKey, path, (path, recordKey));
  }

  /** Two snapshots of the same open files answer every lookup alike. */
  lemma SnapshotsAgree(a: CandidateOverlaySnapshot, b: CandidateOverlaySnapshot, files: seq<File>, other: seq<File>)
    requires DistinctPaths(files) && multiset(files) == multiset(other) && AnchorsAtHome(files)
    requires a.SnapshotOf(files) && b.SnapshotOf(other)
    ensures a.memberPrefixIndex == b.memberPrefixIndex
    ensures forall n :: Lookup(a.callableByName, n) == Lookup(b.callableByName, n)
                     && Lookup(a.declarationByName, n) == Lookup(b.declarationByName, n)
                     && Lookup(a.recordByName, n) == Lookup(b.recordByName, n)
                     && Lookup(a.recordsByPath, n) == Lookup(b.recordsByPath, n)
                     && Lookup(a.aliasByName, n) == Lookup(b.aliasByName, n)
    ensures forall p, k :: Lookup(a.membersByRecordKey, (p, k)) == Lookup(b.membersByRecordKey, (p, k))
  {
    SnapshotIsOrderFree(files, other, "", "", "");
    forall n
      ensures Lookup(a.callableByName, n) == Lookup(b.callableByName, n)
           && Lookup(a.declarationByName, n) == Lookup(b.declarationByName, n)
           && Lookup(a.recordByName, n) == Lookup(b.recordByName, n)
           && Lookup(a.recordsByPath, n) == Lookup(b.recordsByPath, n)
           && Lookup(a.aliasByName, n) == Lookup(b.aliasByName, n)
    {
      SnapshotIsOrderFree(files, other, n, n, "");
    }
    forall p, k ensures Lookup(a.membersByRecordKey, (p, k)) == Lookup(b.membersByRecordKey, (p, k)) {
      SnapshotIsOrderFree(files, other, "", p, k);
    }
  }

  /**
   The anchors have to be at home: two files that hold different anchors with one sort key
   give a list that depends on which file comes first.
   */
  lemma ForeignAnchorsDependOnOrder(f: File, g: File)
    requires |f.anchors| == 1 && |g.anchors| == 1 && f.anchors != g.anchors
    requires f.anchors[0].name == g.anchors[0].name && AnchorKey(f.anchors[0]) == AnchorKey(g.anchors[0])
    ensures Indexed([f, g], AnchorPairs, AnchorKey, f.anchors[0].name)
         != Indexed([g, f], AnchorPairs, AnchorKey, f.anchors[0].name)
  {
    OneAnchorEach(f, g);
    OneAnchorEach(g, f);
  }

  lemma OneAnchorEach(f: File, g: File)
    requires |f.anchors| == 1 && |g.anchors| == 1 && f.anchors[0].name == g.anchors[0].name
    requires AnchorKey(f.anchors[0]) == AnchorKey(g.anchors[0])
    ensures Indexed([f, g], AnchorPairs, AnchorKey, f.anchors[0].name) == [f.anchors[0], g.anchors[0]]
  {
    var a, b, name := f.anchors[0], g.anchors[0], f.anchors[0].name;
    PairsValues(f.anchors, (x: Anchor) => x.name, (x: Anchor) => x, name);
    PairsValues(g.anchors, (x: Anchor) => x.name, (x: Anchor) => x, name);
    assert ValuesOf(AnchorPairs(f), name) == [a] && ValuesOf(AnchorPairs(g), name) == [b];
    AllPairsSnoc([f], g, AnchorPairs);
    AllPairsSnoc([], f, AnchorPairs);
    assert [] + [f] == [f] && [f] + [g] == [f, g] && AllPairs([f], AnchorPairs) == AnchorPairs(f);
    ValuesOfConcat(AnchorPairs(f), AnchorPairs(g), name);
    KeyLeTotal(AnchorKey(a), AnchorKey(a));
    assert Sorted([a, b], AnchorKey);
    SortedIsFixed([a, b], AnchorKey);
  }

  /** The fallback completions, which the snapshot keeps in file order and never sorts. */
  function Fallbacks(files: seq<File>): seq<At<string>> {
    if files == [] then []
    else seq(|files[0].fallback|, i requires 0 <= i < |files[0].fallback| => At(files[0].path, files[0].fallback[i]))
         + Fallbacks(files[1..])
  }

  /** At most one of the files has any. */
  ghost predicate OneSource(files: seq<File>) {
    forall f, g :: f in files && g in files && f.fallback != [] && g.fallback != [] ==> f == g
  }

  lemma {:induction false} NoFallbacks(files: seq<File>)
    requires forall f :: f in files ==> f.fallback == []
    ensures Fallbacks(files) == []
  {
    if files != [] {
      NoFallbacks(files[1..]);
    }
  }

  lemma {:induction false} FallbacksOfOne(files: seq<File>, f: File)
    requires DistinctPaths(files) && OneSource(files) && f in files && f.fallback != []
    ensures Fallbacks(files) == seq(|f.fallback|, i requires 0 <= i < |f.fallback| => At(f.path, f.fallback[i]))
  {
    if files[0] == f {
      forall g | g in files[1..] ensures g.fallback == [] {
        assert g.path != f.path;
      }
      NoFallbacks(files[1..]);
    } else {
      assert files[0].fallback == [];
      FallbacksOfOne(files[1..], f);
    }
  }

  /** Some order of the files puts `f` first. */
  lemma FrontedFile(files: seq<File>, f: File) returns (other: seq<File>)
    requires f in files
    ensures multiset(other) == multiset(files) && other != [] && other[0] == f
  {
    var i :| 0 <= i < |files| && files[i] == f;
    other := [f] + (files[..i] + files[i + 1..]);
    assert files == files[..i] + [f] + files[i + 1..];
  }

  /**
   Unlike the sorted lists, the fallback completions come in file order: every order of
   the files gives the same list exactly when at most one file has any.
   */
  lemma FallbacksAreOrderFreeIff(files: seq<File>)
    requires DistinctPaths(files)
    ensures (forall other: seq<File> :: multiset(other) == multiset(files) ==> Fallbacks(other) == Fallbacks(files))
       <==> OneSource(files)
  {
    if OneSource(files) {
      forall other: seq<File> | multiset(other) == multiset(files) ensures Fallbacks(other) == Fallbacks(files) {
        PermutedPaths(files, other);
        SameMembers(files, other);
        if f :| f in files && f.fallback != [] {
          FallbacksOfOne(files, f);
          FallbacksOfOne(other, f);
        } else {
          NoFallbacks(files);
          NoFallbacks(other);
        }
      }
    } else {
      var f, g :| f in files && g in files && f.fallback != [] && g.fallback != [] && f != g;
      var a := FrontedFile(files, f);
      var b := FrontedFile(files, g);
      PathIdentifies(files);
      assert Fallbacks(a)[0] == At(f.path, f.fallback[0]) && Fallbacks(b)[0] == At(g.path, g.fallback[0]);
      assert Fallbacks(a) != Fallbacks(b);
    }
  }

  // ---------------------------------------------------------------- the declaration of a fingerprint

  /** The last declaration of a file with this fingerprint. */
  function LastDeclared(declarations: seq<Declaration>, fingerprint: string): Option<Declaration>
    decreases |declarations|
  {
    if declarations == [] then None
    else
      var last := declarations[|declarations| - 1];
      if last.fingerprint == fingerprint then Some(last)
      else LastDeclared(declarations[..|declarations| - 1], fingerprint)
  }

  predicate Declares(f: File, fingerprint: string) { LastDeclared(f.declarations, fingerprint).Some? }

  /** What the snapshot keeps under a fingerprint: each insertion replaces the one before. */
  function ByFingerprint(files: seq<File>, fingerprint: string): Option<At<Declaration>>
    decreases |files|
  {
    if files == [] then None
    else
      var last := files[|files| - 1];
      if Declares(last, fingerprint) then Some(At(last.path, LastDeclared(last.declarations, fingerprint).value))
      else ByFingerprint(files[..|files| - 1], fingerprint)
  }

  /** No two files declare one fingerprint. */
  ghost predicate OneDeclarer(files: seq<File>, fingerprint: string) {
    forall f, g :: f in files && g in files && Declares(f, fingerprint) && Declares(g, fingerprint) ==> f == g
  }

  lemma {:induction false} TheDeclarer(files: seq<File>, fingerprint: string)
    requires OneDeclarer(files, fingerprint)
    ensures forall f :: f in files && Declares(f, fingerprint) ==>
      ByFingerprint(files, fingerprint) == Some(At(f.path, LastDeclared(f.declarations, fingerprint).value))
    ensures (forall f :: f in files ==> !Declares(f, fingerprint)) ==> ByFingerprint(files, fingerprint) == None
    decreases |files|
  {
    if files != [] {
      var front, last := files[..|files| - 1], files[|files| - 1];
      assert files == front + [last] && forall f :: f in front ==> f in files;
      TheDeclarer(front, fingerprint);
    }
  }

  lemma LastFile(files: seq<File>, f: File) returns (other: seq<File>)
    requires f in files
    ensures multiset(other) == multiset(files) && other != [] && other[|other| - 1] == f
  {
    var i :| 0 <= i < |files| && files[i] == f;
    other := files[..i] + files[i + 1..] + [f];
    assert files == files[..i] + [f] + files[i + 1..];
  }

  /**
   The declaration kept under a fingerprint is the one of the last file: every order of the
   files keeps the same one exactly when at most one file declares it.
   */
  lemma FingerprintsAreOrderFreeIff(files: seq<File>, fingerprint: string)
    requires DistinctPaths(files)
    ensures (forall other: seq<File> :: multiset(other) == multiset(files) ==>
               ByFingerprint(other, fingerprint) == ByFingerprint(files, fingerprint))
       <==> OneDeclarer(files, fingerprint)
  {
    if OneDeclarer(files, fingerprint) {
      TheDeclarer(files, fingerprint);
      forall other: seq<File> | multiset(other) == multiset(files)
        ensures ByFingerprint(other, fingerprint) == ByFingerprint(files, fingerprint)
      {
        SameMembers(files, other);
        TheDeclarer(other, fingerprint);
      }
    } else {
      var f, g :| f in files && g in files && Declares(f, fingerprint) && Declares(g, fingerprint) && f != g;
      var a := LastFile(files, f);
      var b := LastFile(files, g);
      PathIdentifies(files);
      assert ByFingerprint(a, fingerprint) != ByFingerprint(b, fingerprint);
    }
  }
}
