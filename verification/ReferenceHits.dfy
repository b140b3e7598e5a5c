/**
 What the reference search finds, told from the workspace (references.rs 430-520): which
 hits there are, how many, what a family leaves of them, and which of them are returned.
 */
module ReferenceHits {
  import opened Basics
  import opened Ordering
  import opened FileList
  import opened ReferenceSearch

  /** No family is asked for, or the file is known to be of that family. */
  predicate Covered(w: Workspace, family: Option<Family>, e: Entry) {
    match family
    case None => true
    case Some(f) => e.file in w.family && w.family[e.file] == f
  }

  /** Line numbers count from one in the searcher and from zero in a hit. */
  predicate AtLine(h: Hit, number: nat) {
    if number == 0 then h.line == 0 else h.line + 1 == number
  }

  /** The hit is the given match of the file, with the role its position has there. */
  predicate IsMatch(w: Workspace, e: Entry, line: MatchLine, span: Span, h: Hit) {
    h.relPath == e.path && AtLine(h, line.number) && h.startCol == span.startCol && h.endCol == span.endCol
    && h.role == (if e.file in w.roles && (h.line, h.startCol) in w.roles[e.file]
                  then w.roles[e.file][(h.line, h.startCol)] else READ)
  }

  ghost predicate MatchesIn(w: Workspace, e: Entry, lines: seq<MatchLine>, h: Hit) {
    exists line, span :: line in lines && span in line.spans && IsMatch(w, e, line, span, h)
  }

  ghost predicate Matches(w: Workspace, family: Option<Family>, e: Entry, h: Hit) {
    Covered(w, family, e) && e.file in w.text && MatchesIn(w, e, w.text[e.file], h)
  }

  lemma LineHitIff(w: Workspace, e: Entry, line: MatchLine, h: Hit)
    ensures (exists g :: g in LineHits(e.path, line) && h == RoleAt(g, RolesOf(w, e.file)))
       <==> exists span :: span in line.spans && IsMatch(w, e, line, span, h)
  {
    var hits := LineHits(e.path, line);
    if g :| g in hits && h == RoleAt(g, RolesOf(w, e.file)) {
      var i :| 0 <= i < |hits| && hits[i] == g;
      assert IsMatch(w, e, line, line.spans[i], h);
    }
    if span :| span in line.spans && IsMatch(w, e, line, span, h) {
      var i :| 0 <= i < |line.spans| && line.spans[i] == span;
      assert hits[i] in hits && h == RoleAt(hits[i], RolesOf(w, e.file));
    }
  }

  lemma {:induction false} FileHitIff(w: Workspace, e: Entry, lines: seq<MatchLine>, h: Hit)
    ensures (exists g :: g in FileHits(e.path, lines) && h == RoleAt(g, RolesOf(w, e.file)))
       <==> MatchesIn(w, e, lines, h)
  {
    if lines != [] {
      FileHitIff(w, e, lines[1..], h);
      LineHitIff(w, e, lines[0], h);
      assert lines == [lines[0]] + lines[1..];
    }
  }

  lemma OneFile(w: Workspace, family: Option<Family>, e: Entry, h: Hit)
    ensures h in HitsOf(w, family, e) <==> Matches(w, family, e, h)
  {
    if e.file in w.text {
      var found := FileHits(e.path, w.text[e.file]);
      FileHitIff(w, e, w.text[e.file], h);
      if g :| g in found && h == RoleAt(g, RolesOf(w, e.file)) {
        var i :| 0 <= i < |found| && found[i] == g;
        assert Classified(found, RolesOf(w, e.file))[i] == h;
      }
    }
  }

  /** A hit is found exactly when some file that is covered and can be read has that match. */
  lemma {:induction false} HitIff(w: Workspace, family: Option<Family>, files: seq<Entry>, h: Hit)
    ensures h in AllHits(w, family, files) <==> exists e :: e in files && Matches(w, family, e, h)
  {
    if files != [] {
      HitIff(w, family, files[1..], h);
      OneFile(w, family, files[0], h);
      assert files == [files[0]] + files[1..];
    }
  }

  // ---------------------------------------------------------------- how many

  function SpanCount(lines: seq<MatchLine>): nat {
    if lines == [] then 0 else |lines[0].spans| + SpanCount(lines[1..])
  }

  /** The matches of all covered files that can be read. */
  function MatchCount(w: Workspace, family: Option<Family>, files: seq<Entry>): nat {
    if files == [] then 0
    else
      (if Covered(w, family, files[0]) && files[0].file in w.text then SpanCount(w.text[files[0].file]) else 0)
      + MatchCount(w, family, files[1..])
  }

  lemma {:induction false} FileHitCount(path: string, lines: seq<MatchLine>)
    ensures |FileHits(path, lines)| == SpanCount(lines)
  {
    if lines != [] {
      FileHitCount(path, lines[1..]);
    }
  }

  /** Every match gives one hit. */
  lemma {:induction false} HitCount(w: Workspace, family: Option<Family>, files: seq<Entry>)
    ensures |AllHits(w, family, files)| == MatchCount(w, family, files)
  {
    if files != [] {
      HitCount(w, family, files[1..]);
      if files[0].file in w.text {
        FileHitCount(files[0].path, w.text[files[0].file]);
      }
    }
  }

  // ---------------------------------------------------------------- families

  function OfFamily(w: Workspace, family: Family, files: seq<Entry>): (r: seq<Entry>)
    ensures forall e :: e in r <==> e in files && e.file in w.family && w.family[e.file] == family
  {
    if files == [] then []
    else
      assert files == [files[0]] + files[1..];
      (if files[0].file in w.family && w.family[files[0].file] == family then [files[0]] else [])
      + OfFamily(w, family, files[1..])
  }

  /** A search within a family is a search without one over the files of the family. */
  lemma {:induction false} FamilyIsAFilter(w: Workspace, family: Family, files: seq<Entry>)
    ensures AllHits(w, Some(family), files) == AllHits(w, None, OfFamily(w, family, files))
  {
    if files != [] {
      var kept := OfFamily(w, family, files[1..]);
      FamilyIsAFilter(w, family, files[1..]);
      if files[0].file in w.family && w.family[files[0].file] == family {
        var all := OfFamily(w, family, files);
        assert all == [files[0]] + kept && all[1..] == kept;
      } else {
        assert OfFamily(w, family, files) == kept;
      }
    }
  }

  // ---------------------------------------------------------------- the answer

  /**
   Over files in path order the answer is the first 2000 hits as they come, flagged exactly
   when there are more.
   */
  lemma AnswerIsThePrefix(w: Workspace, family: Option<Family>, files: seq<Entry>)
    requires Ascending(files) && ScanOrdered(w)
    ensures var all := AllHits(w, family, files);
      PlainSearch(w, family, files)
      == (if |all| <= 2000 then Found(all, false) else Found(all[..2000], true))
  {
    HitsSorted(w, family, files);
    SortedIsFixed(AllHits(w, family, files), HitKey);
  }

  /**
   The search fails exactly when some covered file cannot be read and the chunks of 32 files
   before its own have no more than 2000 matches.
   */
  lemma FailsIff(w: Workspace, family: Option<Family>, files: seq<Entry>)
    ensures FailureVisited(w, family, files)
       <==> exists c, i :: 0 <= 32 * c <= i < |files| && i < 32 * c + 32
              && Covered(w, family, files[i]) && files[i].file !in w.text
              && MatchCount(w, family, files[..32 * c]) <= 2000
  {
    if i :| 0 <= i < |files| && Fails(w, family, files[i]) && ChunkReached(w, family, files, i) {
      var c := i / 32;
      assert i - i % 32 == 32 * c;
      HitCount(w, family, files[..32 * c]);
    }
    if c, i :| 0 <= 32 * c <= i < |files| && i < 32 * c + 32
              && Covered(w, family, files[i]) && files[i].file !in w.text
              && MatchCount(w, family, files[..32 * c]) <= 2000 {
      assert i - i % 32 == 32 * c;
      HitCount(w, family, files[..32 * c]);
      assert Fails(w, family, files[i]) && ChunkReached(w, family, files, i);
    }
  }
}
