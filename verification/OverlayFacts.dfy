/**
 What the finished snapshot holds under each name, record and path, told from the open
 files (candidate_service.rs 370-595), and how each list is ordered.
 */
module OverlayFacts {
  import opened Basics
  import opened Ordering
  import opened Overlay

  // ---------------------------------------------------------------- who is filed where

  lemma {:induction false} ValuesIff<K, V>(pairs: seq<(K, V)>, k: K, v: V)
    ensures v in ValuesOf(pairs, k) <==> (k, v) in pairs
  {
    if pairs != [] {
      ValuesIff(pairs[1..], k, v);
      assert pairs == [pairs[0]] + pairs[1..];
    }
  }

  lemma {:induction false} AllPairsIff<K, V>(files: seq<File>, pairsOf: File -> seq<(K, V)>, p: (K, V))
    ensures p in AllPairs(files, pairsOf) <==> exists f :: f in files && p in pairsOf(f)
  {
    if files != [] {
      AllPairsIff(files[1..], pairsOf, p);
      assert files == [files[0]] + files[1..];
    }
  }

  lemma {:induction false} PairsIff<T, K, V>(items: seq<T>, key: T -> K, value: T -> V, p: (K, V))
    ensures p in Pairs(items, key, value) <==> exists x :: x in items && p == (key(x), value(x))
  {
    if items != [] {
      PairsIff(items[1..], key, value, p);
      assert items == [items[0]] + items[1..];
    }
  }

  /** A finished list holds what some file files under its key. */
  lemma IndexedIff<K, V>(files: seq<File>, pairsOf: File -> seq<(K, V)>, key: V -> Key, k: K, v: V)
    ensures v in Indexed(files, pairsOf, key, k) <==> exists f :: f in files && (k, v) in pairsOf(f)
  {
    SortKeepsMembers(ValuesOf(AllPairs(files, pairsOf), k), key);
    ValuesIff(AllPairs(files, pairsOf), k, v);
    AllPairsIff(files, pairsOf, (k, v));
  }

  lemma CallableIff(c: CandidateOverlaySnapshot, files: seq<File>, name: string, a: Anchor)
    requires c.SnapshotOf(files)
    ensures a in Lookup(c.callableByName, name) <==> exists f :: f in files && a in f.anchors && a.name == name
  {
    IndexedIff(files, AnchorPairs, AnchorKey, name, a);
    forall f: File ensures (name, a) in AnchorPairs(f) <==> a in f.anchors && a.name == name {
      PairsIff(f.anchors, (x: Anchor) => x.name, (x: Anchor) => x, (name, a));
    }
  }

  lemma DeclarationIff(c: CandidateOverlaySnapshot, files: seq<File>, name: string, d: At<Declaration>)
    requires c.SnapshotOf(files)
    ensures d in Lookup(c.declarationByName, name)
       <==> exists f :: f in files && d.path == f.path && d.fact in f.declarations && d.fact.name == name
  {
    IndexedIff(files, DeclarationPairs, DeclarationKey, name, d);
    forall f: File
      ensures (name, d) in DeclarationPairs(f)
         <==> d.path == f.path && d.fact in f.declarations && d.fact.name == name
    {
      PairsIff(f.declarations, (x: Declaration) => x.name, (x: Declaration) => At(f.path, x), (name, d));
    }
  }

  lemma AliasIff(c: CandidateOverlaySnapshot, files: seq<File>, name: string, a: At<Alias>)
    requires c.SnapshotOf(files)
    ensures a in Lookup(c.aliasByName, name)
       <==> exists f :: f in files && a.path == f.path && a.fact in f.aliases && a.fact.alias == name
  {
    IndexedIff(files, AliasPairs, AliasKey, name, a);
    forall f: File
      ensures (name, a) in AliasPairs(f) <==> a.path == f.path && a.fact in f.aliases && a.fact.alias == name
    {
      PairsIff(f.aliases, (x: Alias) => x.alias, (x: Alias) => At(f.path, x), (name, a));
    }
  }

  lemma RecordByPathIff(c: CandidateOverlaySnapshot, files: seq<File>, path: string, r: At<Record>)
    requires c.SnapshotOf(files)
    ensures r in Lookup(c.recordsByPath, path)
       <==> r.path == path && exists f :: f in files && f.path == path && r.fact in f.records
  {
    IndexedIff(files, RecordPathPairs, RecordInFileKey, path, r);
    forall f: File
      ensures (path, r) in RecordPathPairs(f) <==> f.path == path && r.path == path && r.fact in f.records
    {
      PairsIff(f.records, (x: Record) => f.path, (x: Record) => At(f.path, x), (path, r));
    }
  }

  // ---------------------------------------------------------------- records by name

  /** The display name, the tag or the typedef name. */
  predicate GoesBy(r: Record, name: string) {
    name == r.displayName || r.tagName == Some(name) || r.typedefName == Some(name)
  }

  lemma NameKeyOrder(m: string, n: string)
    ensures KeyLe(NameKey(m), NameKey(n)) <==> StringLe(m, n)
  {
    assert NameKey(m)[1..] == [] && NameKey(n)[1..] == [];
    StringLeReflexive(m);
  }

  ghost predicate Ascend(s: seq<string>) {
    forall i, j :: 0 <= i < j < |s| ==> StringLe(s[i], s[j])
  }

  ghost predicate StrictlyAscend(s: seq<string>) {
    forall i, j :: 0 <= i < j < |s| ==> StringLt(s[i], s[j])
  }

  /** Of sorted names each stays once. */
  lemma {:induction false} DedupAscends(s: seq<string>)
    requires Ascend(s)
    ensures StrictlyAscend(DedupNeighbours(s))
    decreases |s|
  {
    if |s| >= 2 {
      var rest := DedupNeighbours(s[1..]);
      DedupAscends(s[1..]);
      if s[0] != s[1] {
        forall j | 0 <= j < |rest| ensures StringLt(s[0], rest[j]) {
          DedupKeepsMembers(s[1..]);
          assert rest[j] in rest;
          var k :| 0 <= k < |s[1..]| && s[1..][k] == rest[j];
          assert StringLe(s[0], s[k + 1]) && StringLe(s[0], s[1]);
          if s[k + 1] == s[0] {
            assert StringLe(s[1], s[k + 1]);
            StringLeAntisymmetric(s[0], s[1]);
          }
        }
      }
    }
  }

  lemma {:induction false} StringLeAntisymmetric(a: string, b: string)
    requires StringLe(a, b) && StringLe(b, a)
    ensures a == b
    decreases a
  {
    if a != [] && b != [] && a[0] == b[0] {
      StringLeAntisymmetric(a[1..], b[1..]);
    }
  }

  lemma SortedNamesAscend(names: seq<string>)
    ensures Ascend(StableSort(names, NameKey))
  {
    var sorted := StableSort(names, NameKey);
    StableSortFacts(names, NameKey);
    forall i, j | 0 <= i < j < |sorted| ensures StringLe(sorted[i], sorted[j]) {
      assert KeyLe(NameKey(sorted[i]), NameKey(sorted[j]));
      NameKeyOrder(sorted[i], sorted[j]);
    }
  }

  /** A record is filed under each of its names, once, in their order. */
  lemma NamesAreItsNames(r: Record)
    ensures forall n :: n in NamesOf(r) <==> GoesBy(r, n)
    ensures StrictlyAscend(NamesOf(r))
  {
    var names := AllNamesOf(r);
    assert forall n :: n in names <==> GoesBy(r, n);
    SortKeepsMembers(names, NameKey);
    DedupKeepsMembers(StableSort(names, NameKey));
    SortedNamesAscend(names);
    DedupAscends(StableSort(names, NameKey));
  }

  lemma {:induction false} RecordNamesIff(path: string, records: seq<Record>, name: string, r: At<Record>)
    ensures (name, r) in RecordNamePairsOf(path, records)
       <==> r.path == path && r.fact in records && GoesBy(r.fact, name)
  {
    if records != [] {
      var fact := At(path, records[0]);
      RecordNamesIff(path, records[1..], name, r);
      PairsIff(NamesOf(records[0]), (n: string) => n, (n: string) => fact, (name, r));
      NamesAreItsNames(records[0]);
      assert records == [records[0]] + records[1..];
    }
  }

  lemma RecordByNameIff(c: CandidateOverlaySnapshot, files: seq<File>, name: string, r: At<Record>)
    requires c.SnapshotOf(files)
    ensures r in Lookup(c.recordByName, name)
       <==> GoesBy(r.fact, name) && exists f :: f in files && r.path == f.path && r.fact in f.records
  {
    IndexedIff(files, RecordNamePairs, RecordKey, name, r);
    forall f: File
      ensures (name, r) in RecordNamePairs(f) <==> r.path == f.path && r.fact in f.records && GoesBy(r.fact, name)
    {
      RecordNamesIff(f.path, f.records, name, r);
    }
  }

  // ---------------------------------------------------------------- members

  /** Record `i` is the only one that goes by the name. */
  ghost predicate SoleRecord(records: seq<Record>, name: string, i: nat) {
    i < |records| && GoesBy(records[i], name)
    && forall j :: 0 <= j < |records| && GoesBy(records[j], name) ==> j == i
  }

  /** The record a member goes to: the only one its owner names, else the key it carries. */
  ghost predicate GoesTo(records: seq<Record>, m: Member, key: string) {
    (exists name, i: nat :: m.recordKey == "owner:" + name && SoleRecord(records, name, i) && key == records[i].key)
    || ((forall name, i: nat :: m.recordKey == "owner:" + name ==> !SoleRecord(records, name, i)) && key == m.recordKey)
  }

  lemma {:induction false} NoneNamed(records: seq<Record>, name: string)
    ensures RecordsNamed(records, name) == [] <==> forall j :: 0 <= j < |records| ==> !GoesBy(records[j], name)
  {
    if records != [] {
      NoneNamed(records[1..], name);
      assert forall j :: 0 < j < |records| ==> records[j] == records[1..][j - 1];
    }
  }

  lemma {:induction false} OneNamed(records: seq<Record>, name: string) returns (i: nat)
    requires |RecordsNamed(records, name)| == 1
    ensures SoleRecord(records, name, i)
  {
    assert forall j :: 0 < j < |records| ==> records[j] == records[1..][j - 1];
    if GoesBy(records[0], name) {
      NoneNamed(records[1..], name);
      assert forall j :: 0 < j < |records| ==> !GoesBy(records[j], name);
      i := 0;
    } else {
      i := OneNamed(records[1..], name);
      i := i + 1;
    }
  }

  lemma {:induction false} SoleIsNamed(records: seq<Record>, name: string, i: nat)
    requires SoleRecord(records, name, i)
    ensures RecordsNamed(records, name) == [records[i]]
  {
    assert forall j :: 0 < j < |records| ==> records[j] == records[1..][j - 1];
    if i == 0 {
      NoneNamed(records[1..], name);
    } else {
      assert !GoesBy(records[0], name);
      SoleIsNamed(records[1..], name, i - 1);
    }
  }

  lemma OwnerIs(m: Member, name: string)
    ensures m.recordKey == "owner:" + name
       <==> |OWNER| <= |m.recordKey| && m.recordKey[..|OWNER|] == OWNER && m.recordKey[|OWNER|..] == name
  {
    if m.recordKey == "owner:" + name {
      assert m.recordKey[..6] == OWNER && m.recordKey[6..] == name;
    }
  }

  lemma RecordKeyGoes(records: seq<Record>, m: Member)
    ensures GoesTo(records, m, RecordKeyOf(records, m))
  {
    forall name ensures m.recordKey == "owner:" + name <==>
      |OWNER| <= |m.recordKey| && m.recordKey[..|OWNER|] == OWNER && m.recordKey[|OWNER|..] == name
    {
      OwnerIs(m, name);
    }
    if |OWNER| <= |m.recordKey| && m.recordKey[..|OWNER|] == OWNER {
      var name := m.recordKey[|OWNER|..];
      if |RecordsNamed(records, name)| == 1 {
        var i := OneNamed(records, name);
        SoleIsNamed(records, name, i);
      } else {
        forall i: nat ensures !SoleRecord(records, name, i) {
          if SoleRecord(records, name, i) {
            SoleIsNamed(records, name, i);
          }
        }
      }
    }
  }

  lemma GoesToOne(records: seq<Record>, m: Member, key: string, other: string)
    requires GoesTo(records, m, key) && GoesTo(records, m, other)
    ensures key == other
  {
    forall name, also | m.recordKey == "owner:" + name && m.recordKey == "owner:" + also ensures name == also {
      OwnerIs(m, name);
      OwnerIs(m, also);
    }
  }

  lemma RecordKeyIff(records: seq<Record>, m: Member, key: string)
    ensures RecordKeyOf(records, m) == key <==> GoesTo(records, m, key)
  {
    RecordKeyGoes(records, m);
    if GoesTo(records, m, key) {
      GoesToOne(records, m, key, RecordKeyOf(records, m));
    }
  }

  lemma MemberIff(c: CandidateOverlaySnapshot, files: seq<File>, path: string, key: string, m: Member)
    requires c.SnapshotOf(files)
    ensures m in Lookup(c.membersByRecordKey, (path, key))
       <==> exists f :: f in files && f.path == path && m in f.members && GoesTo(f.records, m, key)
  {
    IndexedIff(files, MemberPairs, MemberKey, (path, key), m);
    forall f: File
      ensures ((path, key), m) in MemberPairs(f) <==> f.path == path && m in f.members && GoesTo(f.records, m, key)
    {
      RecordKeyIff(f.records, m, key);
      PairsIff(f.members, (x: Member) => (f.path, RecordKeyOf(f.records, x)), (x: Member) => x, ((path, key), m));
    }
  }

  lemma PrefixMemberIff(c: CandidateOverlaySnapshot, files: seq<File>, m: At<Member>)
    requires c.SnapshotOf(files)
    ensures m in c.memberPrefixIndex <==> exists f :: f in files && m.path == f.path && m.fact in f.members
  {
    IndexedIff(files, MemberFacts, MemberPrefixKey, 0, m);
    forall f: File ensures (0, m) in MemberFacts(f) <==> m.path == f.path && m.fact in f.members {
      PairsIff(f.members, (x: Member) => 0, (x: Member) => At(f.path, x), (0, m));
    }
  }

  // ---------------------------------------------------------------- files

  /** Every open file has its family, and no other path has one. */
  lemma FamilyIff(c: CandidateOverlaySnapshot, files: seq<File>, path: string, family: Family)
    requires c.SnapshotOf(files) && DistinctPaths(files)
    ensures path in c.familyByPath && c.familyByPath[path] == family
       <==> exists f :: f in files && f.path == path && f.family == family
  {
    if path in c.familyByPath {
      var f :| f in files && f.path == path;
      assert c.familyByPath[f.path] == f.family;
    }
  }

  lemma {:induction false} FallbackIff(files: seq<File>, x: At<string>)
    ensures x in Fallbacks(files) <==> exists f :: f in files && f.path == x.path && x.fact in f.fallback
  {
    if files != [] {
      var f := files[0];
      var own := seq(|f.fallback|, i requires 0 <= i < |f.fallback| => At(f.path, f.fallback[i]));
      FallbackIff(files[1..], x);
      assert files == [f] + files[1..];
      if f.path == x.path && x.fact in f.fallback {
        var i :| 0 <= i < |f.fallback| && f.fallback[i] == x.fact;
        assert own[i] == x;
      }
    }
  }

  /** The declaration is the last of the list with that fingerprint. */
  ghost predicate IsLastDeclared(declarations: seq<Declaration>, fingerprint: string, d: Declaration) {
    exists i :: 0 <= i < |declarations| && declarations[i] == d && d.fingerprint == fingerprint
      && forall j :: i < j < |declarations| ==> declarations[j].fingerprint != fingerprint
  }

  lemma {:induction false} LastDeclaredIs(declarations: seq<Declaration>, fingerprint: string)
    ensures match LastDeclared(declarations, fingerprint)
            case Some(d) => IsLastDeclared(declarations, fingerprint, d)
            case None => forall d :: d in declarations ==> d.fingerprint != fingerprint
    decreases |declarations|
  {
    if declarations != [] {
      var n := |declarations| - 1;
      var front := declarations[..n];
      assert declarations == front + [declarations[n]];
      LastDeclaredIs(front, fingerprint);
      if declarations[n].fingerprint == fingerprint {
        assert IsLastDeclared(declarations, fingerprint, declarations[n]);
      } else if LastDeclared(front, fingerprint).Some? {
        var d := LastDeclared(front, fingerprint).value;
        var i :| 0 <= i < n && front[i] == d && d.fingerprint == fingerprint
                 && forall j :: i < j < n ==> front[j].fingerprint != fingerprint;
        assert declarations[i] == d && forall j :: i < j < n ==> declarations[j] == front[j];
      }
    }
  }

  /** The file declares something with that fingerprint, and no file behind it does. */
  ghost predicate LastDeclarer(files: seq<File>, fingerprint: string, i: nat) {
    i < |files| && (exists d :: d in files[i].declarations && d.fingerprint == fingerprint)
    && forall j, d :: i < j < |files| && d in files[j].declarations ==> d.fingerprint != fingerprint
  }

  ghost predicate KeptUnder(files: seq<File>, fingerprint: string, kept: Option<At<Declaration>>) {
    if kept.None? then forall f, d :: f in files && d in f.declarations ==> d.fingerprint != fingerprint
    else
      exists i: nat :: LastDeclarer(files, fingerprint, i) && kept.value.path == files[i].path
        && IsLastDeclared(files[i].declarations, fingerprint, kept.value.fact)
  }

  lemma KeptByLast(front: seq<File>, last: File, fingerprint: string, d: Declaration)
    requires IsLastDeclared(last.declarations, fingerprint, d)
    ensures KeptUnder(front + [last], fingerprint, Some(At(last.path, d)))
  {
    var files := front + [last];
    assert d in last.declarations && files[|front|] == last;
    assert LastDeclarer(files, fingerprint, |front|);
  }

  lemma KeptByFront(front: seq<File>, last: File, fingerprint: string, kept: Option<At<Declaration>>)
    requires KeptUnder(front, fingerprint, kept)
    requires forall d :: d in last.declarations ==> d.fingerprint != fingerprint
    ensures KeptUnder(front + [last], fingerprint, kept)
  {
    var files := front + [last];
    assert files[|front|] == last && forall j :: 0 <= j < |front| ==> files[j] == front[j];
    if kept.Some? {
      var i: nat :| LastDeclarer(front, fingerprint, i) && kept.value.path == front[i].path
                    && IsLastDeclared(front[i].declarations, fingerprint, kept.value.fact);
      assert LastDeclarer(files, fingerprint, i);
    }
  }

  /** Under a fingerprint stays the last declaration with it of the last file that has one. */
  lemma {:induction false} KeptDeclarationIs(files: seq<File>, fingerprint: string)
    ensures KeptUnder(files, fingerprint, ByFingerprint(files, fingerprint))
    decreases |files|
  {
    if files != [] {
      var front, last := files[..|files| - 1], files[|files| - 1];
      assert files == front + [last];
      LastDeclaredIs(last.declarations, fingerprint);
      if Declares(last, fingerprint) {
        KeptByLast(front, last, fingerprint, LastDeclared(last.declarations, fingerprint).value);
      } else {
        KeptDeclarationIs(front, fingerprint);
        KeptByFront(front, last, fingerprint, ByFingerprint(front, fingerprint));
      }
    }
  }

  // ---------------------------------------------------------------- order

  /** By path, then by position, then by text. */
  predicate InFileOrder(path: string, start: nat, text: string, path': string, start': nat, text': string) {
    if path != path' then StringLt(path, path')
    else if start != start' then start < start'
    else StringLe(text, text')
  }

  lemma FileOrderIff(path: string, start: nat, text: string, path': string, start': nat, text': string)
    ensures KeyLe([Text(path), Num(start), Text(text)], [Text(path'), Num(start'), Text(text')])
       <==> InFileOrder(path, start, text, path', start', text')
  {
    PlaceOrderIff(start, text, start', text');
    var a, b := [Text(path), Num(start), Text(text)], [Text(path'), Num(start'), Text(text')];
    assert a[1..] == [Num(start), Text(text)] && b[1..] == [Num(start'), Text(text')];
  }

  lemma PlaceOrderIff(start: nat, text: string, start': nat, text': string)
    ensures KeyLe([Num(start), Text(text)], [Num(start'), Text(text')])
       <==> (if start != start' then start < start' else StringLe(text, text'))
  {
    var a, b := [Num(start), Text(text)], [Num(start'), Text(text')];
    assert a[1..] == NameKey(text) && b[1..] == NameKey(text');
    NameKeyOrder(text, text');
  }

  /** Callables, declarations, records by name and aliases stand in the order of their files and places. */
  lemma ListsAreInFileOrder(c: CandidateOverlaySnapshot, files: seq<File>, name: string, i: nat, j: nat)
    requires c.SnapshotOf(files) && i < j
    ensures var l := Lookup(c.callableByName, name); j < |l| ==>
      InFileOrder(l[i].path, l[i].start, l[i].fingerprint, l[j].path, l[j].start, l[j].fingerprint)
    ensures var l := Lookup(c.declarationByName, name); j < |l| ==>
      InFileOrder(l[i].path, l[i].fact.start, l[i].fact.fingerprint, l[j].path, l[j].fact.start, l[j].fact.fingerprint)
    ensures var l := Lookup(c.recordByName, name); j < |l| ==>
      InFileOrder(l[i].path, l[i].fact.start, l[i].fact.key, l[j].path, l[j].fact.start, l[j].fact.key)
    ensures var l := Lookup(c.aliasByName, name); j < |l| ==>
      InFileOrder(l[i].path, l[i].fact.start, l[i].fact.fingerprint, l[j].path, l[j].fact.start, l[j].fact.fingerprint)
  {
    var anchors, declarations := Lookup(c.callableByName, name), Lookup(c.declarationByName, name);
    var records, aliases := Lookup(c.recordByName, name), Lookup(c.aliasByName, name);
    if j < |anchors| {
      IndexedPair(files, AnchorPairs, AnchorKey, name, i, j);
      FileOrderIff(anchors[i].path, anchors[i].start, anchors[i].fingerprint,
                   anchors[j].path, anchors[j].start, anchors[j].fingerprint);
    }
    if j < |declarations| {
      var d, e := declarations[i], declarations[j];
      IndexedPair(files, DeclarationPairs, DeclarationKey, name, i, j);
      FileOrderIff(d.path, d.fact.start, d.fact.fingerprint, e.path, e.fact.start, e.fact.fingerprint);
    }
    if j < |records| {
      var d, e := records[i], records[j];
      IndexedPair(files, RecordNamePairs, RecordKey, name, i, j);
      FileOrderIff(d.path, d.fact.start, d.fact.key, e.path, e.fact.start, e.fact.key);
    }
    if j < |aliases| {
      var d, e := aliases[i], aliases[j];
      IndexedPair(files, AliasPairs, AliasKey, name, i, j);
      FileOrderIff(d.path, d.fact.start, d.fact.fingerprint, e.path, e.fact.start, e.fact.fingerprint);
    }
  }

  lemma MemberOrderIff(a: Member, b: Member)
    ensures KeyLe(MemberKey(a), MemberKey(b)) <==>
      (if a.start != b.start then a.start < b.start
       else if a.name != b.name then StringLt(a.name, b.name)
       else StringLe(a.kind, b.kind))
  {
    var s, t := MemberKey(a), MemberKey(b);
    assert s[1..] == [Text(a.name), Text(a.kind)] && t[1..] == [Text(b.name), Text(b.kind)];
    assert s[1..][1..] == NameKey(a.kind) && t[1..][1..] == NameKey(b.kind);
    NameKeyOrder(a.kind, b.kind);
  }

  /** The records of a file and the members of a record stand in the order of their places. */
  lemma ListsAreInPlaceOrder(c: CandidateOverlaySnapshot, files: seq<File>, path: string, key: string, i: nat, j: nat)
    requires c.SnapshotOf(files) && i < j
    ensures var l := Lookup(c.recordsByPath, path); j < |l| ==>
      (if l[i].fact.start != l[j].fact.start then l[i].fact.start < l[j].fact.start
       else StringLe(l[i].fact.key, l[j].fact.key))
    ensures var l := Lookup(c.membersByRecordKey, (path, key)); j < |l| ==>
      (if l[i].start != l[j].start then l[i].start < l[j].start
       else if l[i].name != l[j].name then StringLt(l[i].name, l[j].name)
       else StringLe(l[i].kind, l[j].kind))
  {
    var records, members := Lookup(c.recordsByPath, path), Lookup(c.membersByRecordKey, (path, key));
    if j < |records| {
      IndexedPair(files, RecordPathPairs, RecordInFileKey, path, i, j);
      var d, e := records[i].fact, records[j].fact;
      PlaceOrderIff(d.start, d.key, e.start, e.key);
    }
    if j < |members| {
      IndexedPair(files, MemberPairs, MemberKey, (path, key), i, j);
      MemberOrderIff(members[i], members[j]);
    }
  }

  lemma IndexedPair<K, V>(files: seq<File>, pairsOf: File -> seq<(K, V)>, key: V -> Key, k: K, i: nat, j: nat)
    requires i < j < |Indexed(files, pairsOf, key, k)|
    ensures var l := Indexed(files, pairsOf, key, k); KeyLe(key(l[i]), key(l[j]))
  {
    StableSortFacts(ValuesOf(AllPairs(files, pairsOf), k), key);
  }
}
