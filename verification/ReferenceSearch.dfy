/**
 The bounded reference search (references.rs): files are searched in path order,
 in chunks, each file stops one hit past the limit, and the whole search stops
 after the first chunk that exceeds the limit. The plain form searches every file
 completely, sorts all hits, and keeps the first ones.

 The text matcher and the role parser are opaque: a workspace says for each file
 which spans of which lines match, and which role each position has.
 */
module ReferenceSearch {
  import opened Basics
  import opened Ordering
  import opened FileList

  const REFERENCES_LIMIT := 2000
  const REFERENCE_SEARCH_CHUNK := 32

  type Role = nat
  const READ: Role := 5

  type Family = nat

  datatype Hit = Hit(relPath: string, line: nat, startCol: nat, endCol: nat, role: Role)

  datatype Span = Span(startCol: nat, endCol: nat)

  /** A line the searcher reports, with its one-based number. */
  datatype MatchLine = MatchLine(number: nat, spans: seq<Span>)

  datatype Workspace = Workspace(
    text: map<string, seq<MatchLine>>,             // by file; a missing file cannot be read
    roles: map<string, map<(nat, nat), Role>>,     // by file; a missing file cannot be parsed
    family: map<string, Family>)

  datatype SearchResult = Found(hits: seq<Hit>, truncated: bool) | IoError

  // ---------------------------------------------------------------- one file

  function LineHits(path: string, line: MatchLine): seq<Hit> {
    var number := if line.number == 0 then 0 else line.number - 1;
    seq(|line.spans|, i requires 0 <= i < |line.spans| =>
      Hit(path, number, line.spans[i].startCol, line.spans[i].endCol, READ))
  }

  /** Every hit of a file, in the order the searcher meets them. */
  function FileHits(path: string, lines: seq<MatchLine>): seq<Hit> {
    if lines == [] then [] else LineHits(path, lines[0]) + FileHits(path, lines[1..])
  }

  lemma {:induction false} FileHitsSplit(path: string, a: seq<MatchLine>, b: seq<MatchLine>)
    ensures FileHits(path, a + b) == FileHits(path, a) + FileHits(path, b)
  {
    if a == [] {
      assert a + b == b;
    } else {
      assert (a + b)[1..] == a[1..] + b;
      FileHitsSplit(path, a[1..], b);
    }
  }

  /** The matches of one line; the callback stops once the limit is exceeded. */
  method PushLine(hits: seq<Hit>, found: seq<Hit>) returns (more: seq<Hit>)
    requires |hits| <= REFERENCES_LIMIT
    ensures more == Truncate(hits + found, REFERENCES_LIMIT + 1)
  {
    more := hits;
    var j := 0;
    while j < |found| && |more| <= REFERENCES_LIMIT
      invariant j <= |found|
      invariant more == hits + found[..j]
      invariant |more| <= REFERENCES_LIMIT + 1
    {
      more := more + [found[j]];
      j := j + 1;
    }
    assert more == (hits + found)[..|more|];
  }

  /** `search_file_references`: the line callback stops the file once the limit is exceeded. */
  method SearchFileReferences(path: string, lines: seq<MatchLine>) returns (hits: seq<Hit>)
    ensures hits == Truncate(FileHits(path, lines), REFERENCES_LIMIT + 1)
  {
    hits := [];
    var i := 0;
    while i < |lines| && |hits| <= REFERENCES_LIMIT
      invariant i <= |lines|
      invariant hits == Truncate(FileHits(path, lines[..i]), REFERENCES_LIMIT + 1)
    {
      OneMoreLine(path, lines, i);
      hits := PushLine(hits, LineHits(path, lines[i]));
      i := i + 1;
    }
    assert lines[..i] + lines[i..] == lines;
    FileHitsSplit(path, lines[..i], lines[i..]);
    assert i == |lines| ==> lines[..i] == lines;
  }

  lemma OneMoreLine(path: string, lines: seq<MatchLine>, i: nat)
    requires i < |lines|
    ensures FileHits(path, lines[..i + 1]) == FileHits(path, lines[..i]) + LineHits(path, lines[i])
  {
    assert lines[..i + 1] == lines[..i] + [lines[i]];
    FileHitsSplit(path, lines[..i], [lines[i]]);
    assert FileHits(path, [lines[i]]) == LineHits(path, lines[i]);
  }

  function RoleAt(hit: Hit, roles: map<(nat, nat), Role>): Hit {
    if (hit.line, hit.startCol) in roles then hit.(role := roles[(hit.line, hit.startCol)]) else hit
  }

  function Classified(hits: seq<Hit>, roles: map<(nat, nat), Role>): (r: seq<Hit>)
    ensures |r| == |hits|
  {
    seq(|hits|, i requires 0 <= i < |hits| => RoleAt(hits[i], roles))
  }

  function RolesOf(w: Workspace, file: string): map<(nat, nat), Role> {
    if file in w.roles then w.roles[file] else map[]
  }

  /** `semantic_family.is_none_or(..)`. */
  predicate Wanted(w: Workspace, family: Option<Family>, e: Entry) {
    family.None? || (e.file in w.family && w.family[e.file] == family.value)
  }

  predicate Fails(w: Workspace, family: Option<Family>, e: Entry) {
    Wanted(w, family, e) && e.file !in w.text
  }

  /** All classified hits of one candidate; none when it is filtered out or unreadable. */
  function HitsOf(w: Workspace, family: Option<Family>, e: Entry): seq<Hit> {
    if Wanted(w, family, e) && e.file in w.text then
      Classified(FileHits(e.path, w.text[e.file]), RolesOf(w, e.file))
    else []
  }

  // ---------------------------------------------------------------- the whole search

  function AllHits(w: Workspace, family: Option<Family>, files: seq<Entry>): seq<Hit> {
    if files == [] then [] else HitsOf(w, family, files[0]) + AllHits(w, family, files[1..])
  }

  function HitKey(h: Hit): Key {
    [Text(h.relPath), Num(h.line), Num(h.startCol)]
  }

  predicate ChunkReached(w: Workspace, family: Option<Family>, files: seq<Entry>, i: nat)
    requires i < |files|
  {
    |AllHits(w, family, files[..i - i % REFERENCE_SEARCH_CHUNK])| <= REFERENCES_LIMIT
  }

  /** An unreadable file fails the search only when the search gets as far as its chunk. */
  ghost predicate FailureVisited(w: Workspace, family: Option<Family>, files: seq<Entry>) {
    exists i :: 0 <= i < |files| && Fails(w, family, files[i]) && ChunkReached(w, family, files, i)
  }

  /** What the chunked search collects: each file stops one hit past the limit. */
  function CappedHits(w: Workspace, family: Option<Family>, files: seq<Entry>): seq<Hit> {
    if files == [] then []
    else Truncate(HitsOf(w, family, files[0]), REFERENCES_LIMIT + 1) + CappedHits(w, family, files[1..])
  }

  lemma TruncateConcat<T>(a: seq<T>, b: seq<T>, c: seq<T>, cap: nat)
    requires Truncate(b, cap) == Truncate(c, cap)
    ensures Truncate(Truncate(a, cap) + b, cap) == Truncate(a + c, cap)
  {
    if |a| >= cap {
      assert Truncate(Truncate(a, cap) + b, cap) == a[..cap];
      assert Truncate(a + c, cap) == a[..cap];
    } else {
      var x, y := Truncate(a + b, cap), Truncate(a + c, cap);
      assert |x| == |y|;
      forall i | 0 <= i < |x| ensures x[i] == y[i] {
        if i >= |a| {
          assert x[i] == Truncate(b, cap)[i - |a|] && y[i] == Truncate(c, cap)[i - |a|];
        }
      }
      assert x == y;
    }
  }

  /** Up to one past the limit the capped hits are the complete ones. */
  lemma {:induction false} CappedIsComplete(w: Workspace, family: Option<Family>, files: seq<Entry>)
    ensures Truncate(CappedHits(w, family, files), REFERENCES_LIMIT + 1)
         == Truncate(AllHits(w, family, files), REFERENCES_LIMIT + 1)
  {
    if files != [] {
      CappedIsComplete(w, family, files[1..]);
      TruncateConcat(HitsOf(w, family, files[0]), CappedHits(w, family, files[1..]),
        AllHits(w, family, files[1..]), REFERENCES_LIMIT + 1);
    }
  }

  lemma {:induction false} AllHitsSplit(w: Workspace, family: Option<Family>, a: seq<Entry>, b: seq<Entry>)
    ensures AllHits(w, family, a + b) == AllHits(w, family, a) + AllHits(w, family, b)
  {
    if a == [] {
      assert a + b == b;
    } else {
      assert (a + b)[1..] == a[1..] + b;
      AllHitsSplit(w, family, a[1..], b);
    }
  }

  lemma {:induction false} CappedHitsSplit(w: Workspace, family: Option<Family>, a: seq<Entry>, b: seq<Entry>)
    ensures CappedHits(w, family, a + b) == CappedHits(w, family, a) + CappedHits(w, family, b)
  {
    if a == [] {
      assert a + b == b;
    } else {
      assert (a + b)[1..] == a[1..] + b;
      CappedHitsSplit(w, family, a[1..], b);
    }
  }

  /** A file's hits come in line and column order. */
  ghost predicate ScanOrdered(w: Workspace) {
    forall file :: file in w.text ==> LinesOrdered(w.text[file])
  }

  ghost predicate LinesOrdered(lines: seq<MatchLine>) {
    (forall i :: 0 <= i < |lines| ==> lines[i].number > 0 && SpansOrdered(lines[i].spans))
    && forall i, j :: 0 <= i < j < |lines| ==> lines[i].number < lines[j].number
  }

  ghost predicate SpansOrdered(spans: seq<Span>) {
    forall i, j :: 0 <= i < j < |spans| ==> spans[i].startCol <= spans[j].startCol
  }

  lemma HitKeyOrder(g: Hit, h: Hit)
    ensures KeyLe(HitKey(g), HitKey(h)) <==>
              (g.relPath != h.relPath && StringLe(g.relPath, h.relPath))
              || (g.relPath == h.relPath && (g.line < h.line || (g.line == h.line && g.startCol <= h.startCol)))
  {
    var a, b := HitKey(g), HitKey(h);
    var a1, b1 := [Num(g.line), Num(g.startCol)], [Num(h.line), Num(h.startCol)];
    var a2, b2 := [Num(g.startCol)], [Num(h.startCol)];
    assert a[1..] == a1 && b[1..] == b1 && a1[1..] == a2 && b1[1..] == b2;
    assert KeyLe(a2, b2) <==> g.startCol <= h.startCol;
    assert KeyLe(a1, b1) <==> g.line < h.line || (g.line == h.line && KeyLe(a2, b2));
    assert KeyLe(a, b) <==> AtomLt(a[0], b[0]) || (a[0] == b[0] && KeyLe(a1, b1));
    StringLeReflexive(g.relPath);
  }

  ghost predicate FromLine(h: Hit, path: string, lines: seq<MatchLine>) {
    h.relPath == path && exists i :: 0 <= i < |lines| && h.line == lines[i].number - 1
  }

  lemma {:induction false} FileHitsSorted(path: string, lines: seq<MatchLine>)
    requires LinesOrdered(lines)
    ensures Sorted(FileHits(path, lines), HitKey)
    ensures forall h :: h in FileHits(path, lines) ==> FromLine(h, path, lines)
  {
    if lines != [] {
      FileHitsSorted(path, lines[1..]);
      var first, rest := LineHits(path, lines[0]), FileHits(path, lines[1..]);
      forall h | h in rest ensures FromLine(h, path, lines) && h.line >= lines[0].number {
        var i :| 0 <= i < |lines[1..]| && h.line == lines[1..][i].number - 1;
        assert lines[1..][i] == lines[i + 1];
      }
      forall h | h in first ensures FromLine(h, path, lines) {
        assert h.line == lines[0].number - 1;
      }
      forall i, j | 0 <= i < j < |first + rest| ensures KeyLe(HitKey((first + rest)[i]), HitKey((first + rest)[j])) {
        if j < |first| {
          HitKeyOrder(first[i], first[j]);
        } else if i < |first| {
          assert rest[j - |first|] in rest;
          HitKeyOrder(first[i], rest[j - |first|]);
        }
      }
    }
  }

  lemma ClassifiedSorted(hits: seq<Hit>, roles: map<(nat, nat), Role>)
    requires Sorted(hits, HitKey)
    ensures Sorted(Classified(hits, roles), HitKey)
  {
    forall i | 0 <= i < |hits| ensures HitKey(Classified(hits, roles)[i]) == HitKey(hits[i]) {
    }
  }

  lemma HitsOfSorted(w: Workspace, family: Option<Family>, e: Entry)
    requires ScanOrdered(w)
    ensures Sorted(HitsOf(w, family, e), HitKey)
    ensures forall h :: h in HitsOf(w, family, e) ==> h.relPath == e.path
  {
    if Wanted(w, family, e) && e.file in w.text {
      var hits := FileHits(e.path, w.text[e.file]);
      FileHitsSorted(e.path, w.text[e.file]);
      ClassifiedSorted(hits, RolesOf(w, e.file));
      forall h | h in HitsOf(w, family, e) ensures h.relPath == e.path {
        var i :| 0 <= i < |hits| && h == RoleAt(hits[i], RolesOf(w, e.file));
        assert FromLine(hits[i], e.path, w.text[e.file]);
      }
    }
  }

  ghost predicate PathsIn(hits: seq<Hit>, files: seq<Entry>) {
    forall h :: h in hits ==> exists i :: 0 <= i < |files| && files[i].path == h.relPath
  }

  lemma JoinSorted(files: seq<Entry>, first: seq<Hit>, rest: seq<Hit>)
    requires Ascending(files) && files != []
    requires Sorted(first, HitKey) && forall h :: h in first ==> h.relPath == files[0].path
    requires Sorted(rest, HitKey) && PathsIn(rest, files[1..])
    ensures Sorted(first + rest, HitKey) && PathsIn(first + rest, files)
  {
    forall i, j | 0 <= i < j < |first + rest| ensures KeyLe(HitKey((first + rest)[i]), HitKey((first + rest)[j])) {
      if i < |first| <= j {
        var h := rest[j - |first|];
        assert first[i] in first && h in rest;
        var k :| 0 <= k < |files[1..]| && files[1..][k].path == h.relPath;
        assert StringLt(files[0].path, files[k + 1].path);
        HitKeyOrder(first[i], h);
      }
    }
    forall h | h in first + rest ensures exists i :: 0 <= i < |files| && files[i].path == h.relPath {
      if h in first {
        assert files[0].path == h.relPath;
      } else {
        var k :| 0 <= k < |files[1..]| && files[1..][k].path == h.relPath;
        assert files[k + 1].path == h.relPath;
      }
    }
  }

  /** Over path-sorted files both the complete and the capped hits come out sorted. */
  lemma {:induction false} HitsSorted(w: Workspace, family: Option<Family>, files: seq<Entry>)
    requires Ascending(files) && ScanOrdered(w)
    ensures Sorted(AllHits(w, family, files), HitKey) && PathsIn(AllHits(w, family, files), files)
    ensures Sorted(CappedHits(w, family, files), HitKey) && PathsIn(CappedHits(w, family, files), files)
  {
    if files != [] {
      HitsSorted(w, family, files[1..]);
      HitsOfSorted(w, family, files[0]);
      var hits := HitsOf(w, family, files[0]);
      JoinSorted(files, hits, AllHits(w, family, files[1..]));
      JoinSorted(files, Truncate(hits, REFERENCES_LIMIT + 1), CappedHits(w, family, files[1..]));
    }
  }

  /** Stopping after `seen` is stopping late enough. */
  lemma StoppedLateEnough(w: Workspace, family: Option<Family>, seen: seq<Entry>, rest: seq<Entry>)
    requires rest == [] || |CappedHits(w, family, seen)| > REFERENCES_LIMIT
    ensures Truncate(CappedHits(w, family, seen), REFERENCES_LIMIT)
         == Truncate(AllHits(w, family, seen + rest), REFERENCES_LIMIT)
    ensures |CappedHits(w, family, seen)| > REFERENCES_LIMIT <==> |AllHits(w, family, seen + rest)| > REFERENCES_LIMIT
  {
    AllHitsSplit(w, family, seen, rest);
    CappedIsComplete(w, family, seen);
    var capped, all := CappedHits(w, family, seen), AllHits(w, family, seen);
    assert Truncate(capped, REFERENCES_LIMIT + 1) == Truncate(all, REFERENCES_LIMIT + 1);
    if |capped| > REFERENCES_LIMIT {
      assert capped[..REFERENCES_LIMIT] == Truncate(capped, REFERENCES_LIMIT + 1)[..REFERENCES_LIMIT];
      assert all[..REFERENCES_LIMIT] == Truncate(all, REFERENCES_LIMIT + 1)[..REFERENCES_LIMIT];
    }
  }

  function SortedAndCut(hits: seq<Hit>): SearchResult {
    Found(Truncate(StableSort(hits, HitKey), REFERENCES_LIMIT), |hits| > REFERENCES_LIMIT)
  }

  /** The plain form: every hit of every file, sorted, the first ones kept. */
  function PlainSearch(w: Workspace, family: Option<Family>, files: seq<Entry>): SearchResult {
    SortedAndCut(AllHits(w, family, files))
  }

  /** The chunked early-exit search agrees with the plain one wherever it may stop. */
  lemma ChunkedIsPlain(w: Workspace, family: Option<Family>, seen: seq<Entry>, rest: seq<Entry>)
    requires rest == [] || |CappedHits(w, family, seen)| > REFERENCES_LIMIT
    requires Ascending(seen + rest) && ScanOrdered(w)
    ensures SortedAndCut(CappedHits(w, family, seen)) == PlainSearch(w, family, seen + rest)
  {
    StoppedLateEnough(w, family, seen, rest);
    HitsSorted(w, family, seen + rest);
    AscendingPrefix(seen, rest);
    HitsSorted(w, family, seen);
    SortedIsFixed(AllHits(w, family, seen + rest), HitKey);
    SortedIsFixed(CappedHits(w, family, seen), HitKey);
  }

  lemma AscendingPrefix(a: seq<Entry>, b: seq<Entry>)
    requires Ascending(a + b)
    ensures Ascending(a)
  {
    assert forall i :: 0 <= i < |a| ==> a[i] == (a + b)[i];
  }

  /** The outcome of one parallel task: `None` is an I/O error. */
  function Task(w: Workspace, family: Option<Family>, e: Entry): Option<seq<Hit>> {
    if Fails(w, family, e) then None else Some(Truncate(HitsOf(w, family, e), REFERENCES_LIMIT + 1))
  }

  lemma ClassifyTruncated(hits: seq<Hit>, roles: map<(nat, nat), Role>, cap: nat)
    ensures Classified(Truncate(hits, cap), roles) == Truncate(Classified(hits, roles), cap)
  {
  }

  method SearchOne(w: Workspace, family: Option<Family>, e: Entry) returns (found: Option<seq<Hit>>)
    ensures found == Task(w, family, e)
  {
    if !Wanted(w, family, e) {
      return Some([]);
    }
    if e.file !in w.text {
      return None;
    }
    var hits := SearchFileReferences(e.path, w.text[e.file]);
    ClassifyTruncated(FileHits(e.path, w.text[e.file]), RolesOf(w, e.file), REFERENCES_LIMIT + 1);
    return Some(Classified(hits, RolesOf(w, e.file)));
  }

  /** The parallel pass over one chunk: one outcome per file, in order. */
  method SearchChunk(w: Workspace, family: Option<Family>, chunk: seq<Entry>)
    returns (results: seq<Option<seq<Hit>>>)
    ensures |results| == |chunk|
    ensures forall i :: 0 <= i < |chunk| ==> results[i] == Task(w, family, chunk[i])
  {
    results := [];
    for i := 0 to |chunk|
      invariant |results| == i
      invariant forall k :: 0 <= k < i ==> results[k] == Task(w, family, chunk[k])
    {
      var one := SearchOne(w, family, chunk[i]);
      results := results + [one];
    }
  }

  /** Collecting into a `Result`: the hits of every file, or the failure of some file. */
  function Gather(results: seq<Option<seq<Hit>>>): Option<seq<seq<Hit>>> {
    if results == [] then Some([])
    else
      match (results[0], Gather(results[1..]))
      case (Some(hits), Some(rest)) => Some([hits] + rest)
      case _ => None
  }

  lemma {:induction false} GatherFacts(results: seq<Option<seq<Hit>>>)
    ensures Gather(results).None? ==> exists i :: 0 <= i < |results| && results[i].None?
    ensures Gather(results).Some? ==> |Gather(results).value| == |results|
    ensures Gather(results).Some? ==> forall i :: 0 <= i < |results| ==> results[i] == Some(Gather(results).value[i])
  {
    if results != [] {
      GatherFacts(results[1..]);
      if results[0].Some? && Gather(results[1..]).None? {
        var i :| 0 <= i < |results[1..]| && results[1..][i].None?;
        assert results[i + 1].None?;
      }
    }
  }

  function Concat(parts: seq<seq<Hit>>): seq<Hit> {
    if parts == [] then [] else parts[0] + Concat(parts[1..])
  }

  /** Appending the results of a chunk file by file. */
  method AppendAll(hits: seq<Hit>, parts: seq<seq<Hit>>) returns (more: seq<Hit>)
    ensures more == hits + Concat(parts)
  {
    more := hits;
    for i := 0 to |parts|
      invariant more + Concat(parts[i..]) == hits + Concat(parts)
    {
      assert parts[i..][1..] == parts[i + 1..];
      more := more + parts[i];
    }
    assert parts[|parts|..] == [];
  }

  lemma {:induction false} ConcatIsCapped(w: Workspace, family: Option<Family>, files: seq<Entry>, parts: seq<seq<Hit>>)
    requires |parts| == |files|
    requires forall i :: 0 <= i < |files| ==> Some(parts[i]) == Task(w, family, files[i])
    ensures Concat(parts) == CappedHits(w, family, files)
  {
    if files != [] {
      ConcatIsCapped(w, family, files[1..], parts[1..]);
    }
  }

  /** `done` is whole chunks, or everything, and those files were searched without a failure. */
  ghost predicate Searched(w: Workspace, family: Option<Family>, files: seq<Entry>, done: nat, hits: seq<Hit>) {
    done <= |files|
    && (done % REFERENCE_SEARCH_CHUNK == 0 || done == |files|)
    && hits == CappedHits(w, family, files[..done])
    && NoneFails(w, family, files[..done])
  }

  ghost predicate NoneFails(w: Workspace, family: Option<Family>, files: seq<Entry>) {
    forall i :: 0 <= i < |files| ==> !Fails(w, family, files[i])
  }

  function ChunkEnd(files: seq<Entry>, done: nat): (end: nat)
    requires done <= |files|
    ensures done <= end <= |files|
  {
    if done + REFERENCE_SEARCH_CHUNK <= |files| then done + REFERENCE_SEARCH_CHUNK else |files|
  }

  lemma WholeChunks(done: nat)
    ensures done % REFERENCE_SEARCH_CHUNK == 0 ==> (done + REFERENCE_SEARCH_CHUNK) % REFERENCE_SEARCH_CHUNK == 0
  {
  }

  lemma ChunkStartPast(done: nat, i: nat)
    requires done % REFERENCE_SEARCH_CHUNK == 0 && done <= i
    ensures done <= i - i % REFERENCE_SEARCH_CHUNK
  {
    assert done == 32 * (done / 32) && i == 32 * (i / 32) + i % 32;
  }

  lemma ChunkStart(done: nat, i: nat)
    requires done % REFERENCE_SEARCH_CHUNK == 0 && i < REFERENCE_SEARCH_CHUNK
    ensures done + i - (done + i) % REFERENCE_SEARCH_CHUNK == done
  {
    ChunkStartPast(done, done + i);
  }

  lemma NextChunk(w: Workspace, family: Option<Family>, files: seq<Entry>, done: nat, hits: seq<Hit>)
    requires Searched(w, family, files, done, hits)
    requires NoneFails(w, family, files[done..ChunkEnd(files, done)])
    ensures Searched(w, family, files, ChunkEnd(files, done),
              hits + CappedHits(w, family, files[done..ChunkEnd(files, done)]))
  {
    var seen, chunk := files[..done], files[done..ChunkEnd(files, done)];
    assert files[..ChunkEnd(files, done)] == seen + chunk;
    CappedHitsSplit(w, family, seen, chunk);
    WholeChunks(done);
  }

  lemma FailedHere(w: Workspace, family: Option<Family>, files: seq<Entry>, done: nat, hits: seq<Hit>)
    requires Searched(w, family, files, done, hits) && |hits| <= REFERENCES_LIMIT
    requires !NoneFails(w, family, files[done..ChunkEnd(files, done)])
    ensures FailureVisited(w, family, files)
  {
    var chunk := files[done..ChunkEnd(files, done)];
    var i :| 0 <= i < |chunk| && Fails(w, family, chunk[i]);
    assert chunk[i] == files[done + i];
    ChunkStart(done, i);
    CappedIsComplete(w, family, files[..done]);
    assert ChunkReached(w, family, files, done + i);
  }

  lemma NoFailureVisited(w: Workspace, family: Option<Family>, files: seq<Entry>, done: nat, hits: seq<Hit>)
    requires Searched(w, family, files, done, hits)
    requires done == |files| || |hits| > REFERENCES_LIMIT
    ensures !FailureVisited(w, family, files)
  {
    assert forall i :: 0 <= i < done ==> files[..done][i] == files[i];
    forall i | 0 <= i < |files| && Fails(w, family, files[i]) ensures !ChunkReached(w, family, files, i) {
      NotReached(w, family, files, done, i);
    }
  }

  lemma NotReached(w: Workspace, family: Option<Family>, files: seq<Entry>, done: nat, i: nat)
    requires done <= i < |files| && done % REFERENCE_SEARCH_CHUNK == 0
    requires |CappedHits(w, family, files[..done])| > REFERENCES_LIMIT
    ensures !ChunkReached(w, family, files, i)
  {
    var start := i - i % REFERENCE_SEARCH_CHUNK;
    ChunkStartPast(done, i);
    assert files[..start] == files[..done] + files[done..start];
    AllHitsSplit(w, family, files[..done], files[done..start]);
    CappedIsComplete(w, family, files[..done]);
  }

  /** Search one chunk and append its hits; `None` is an I/O error. */
  method ExtendByChunk(w: Workspace, family: Option<Family>, hits: seq<Hit>, chunk: seq<Entry>)
    returns (more: Option<seq<Hit>>)
    ensures more.None? ==> !NoneFails(w, family, chunk)
    ensures more.Some? ==> NoneFails(w, family, chunk) && more.value == hits + CappedHits(w, family, chunk)
  {
    var results := SearchChunk(w, family, chunk);
    GatherFacts(results);
    var gathered := Gather(results);
    if gathered.None? {
      return None;
    }
    ConcatIsCapped(w, family, chunk, gathered.value);
    var appended := AppendAll(hits, gathered.value);
    return Some(appended);
  }

  /** The chunk loop: `done` files were searched when it stopped. */
  method CollectChunks(w: Workspace, family: Option<Family>, files: seq<Entry>)
    returns (collected: Option<seq<Hit>>, truncated: bool, ghost done: nat)
    ensures collected.None? ==> FailureVisited(w, family, files)
    ensures collected.Some? ==> Searched(w, family, files, done, collected.value)
    ensures collected.Some? ==> truncated == (|collected.value| > REFERENCES_LIMIT)
    ensures collected.Some? ==> done == |files| || truncated
  {
    var hits: seq<Hit> := [];
    var next := 0;
    while next < |files|
      invariant next <= |files|
      invariant Searched(w, family, files, next, hits) && |hits| <= REFERENCES_LIMIT
    {
      var end := ChunkEnd(files, next);
      var more := ExtendByChunk(w, family, hits, files[next..end]);
      if more.None? {
        FailedHere(w, family, files, next, hits);
        return None, false, next;
      }
      NextChunk(w, family, files, next, hits);
      hits, next := more.value, end;
      if |hits| > REFERENCES_LIMIT {
        return Some(hits), true, next;
      }
    }
    return Some(hits), false, next;
  }

  /** Whatever the chunk loop may stop with sorts and cuts to the plain result. */
  lemma CollectedIsPlain(w: Workspace, family: Option<Family>, files: seq<Entry>, done: nat, hits: seq<Hit>)
    requires done <= |files| && hits == CappedHits(w, family, files[..done])
    requires done == |files| || |hits| > REFERENCES_LIMIT
    requires Ascending(files) && ScanOrdered(w)
    ensures SortedAndCut(hits) == PlainSearch(w, family, files)
  {
    var seen, rest := files[..done], files[done..];
    assert seen + rest == files;
    ChunkedIsPlain(w, family, seen, rest);
  }

  /**
   `search_references_inner_borrowed`; `files` is what the candidate catalogue's
   iterator yields.
   */
  method SearchReferences(w: Workspace, identifier: string, family: Option<Family>, files: seq<Entry>)
    returns (result: SearchResult)
    ensures identifier == "" ==> result == Found([], false)
    ensures identifier != "" ==> (result == IoError <==> FailureVisited(w, family, files))
    ensures identifier != "" && result.Found? && Ascending(files) && ScanOrdered(w) ==>
              result == PlainSearch(w, family, files)
  {
    if identifier == "" {
      return Found([], false);
    }
    var collected, truncated, done := CollectChunks(w, family, files);
    if collected.None? {
      return IoError;
    }
    NoFailureVisited(w, family, files, done, collected.value);
    if Ascending(files) && ScanOrdered(w) {
      CollectedIsPlain(w, family, files, done, collected.value);
    }
    return Found(Truncate(StableSort(collected.value, HitKey), REFERENCES_LIMIT), truncated);
  }

  /** Over a catalogue, the candidates are the listing of its live entries. */
  lemma CatalogueIsAscending(list: IndexedFileList)
    requires WellFormed(list)
    ensures Ascending(Listing(Live(list)))
    ensures |Listing(Live(list))| == list.count
  {
    ListingFacts(Live(list));
  }
}
