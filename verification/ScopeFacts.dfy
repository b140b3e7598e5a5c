/**
 The verdicts of the scope filter, told from the configuration and the path
 (config.rs 366-439, 663-775, 1043-1070).
 */
module ScopeFacts {
  import opened Basics
  import opened Ordering
  import opened Scope

  // ---------------------------------------------------------------- segments

  /** `path[i..j]` is one component of the path. */
  ghost predicate SegmentAt(path: string, i: nat, j: nat) {
    i <= j <= |path| && (i == 0 || path[i - 1] == '/') && (j == |path| || path[j] == '/')
    && forall k :: i <= k < j ==> path[k] != '/'
  }

  lemma FirstSlash(path: string) returns (i: nat)
    ensures i <= |path| && (i < |path| ==> path[i] == '/') && forall k :: 0 <= k < i ==> path[k] != '/'
  {
    i := 0;
    while i < |path| && path[i] != '/'
      invariant i <= |path| && forall k :: 0 <= k < i ==> path[k] != '/'
    {
      i := i + 1;
    }
  }

  lemma SegmentBehind(path: string, slash: nat, i: nat, j: nat)
    requires slash < |path| && path[slash] == '/' && slash < i <= j
    ensures SegmentAt(path, i, j) <==> SegmentAt(path[slash + 1..], i - slash - 1, j - slash - 1)
    ensures SegmentAt(path, i, j) ==> path[i..j] == path[slash + 1..][i - slash - 1..j - slash - 1]
  {
  }

  ghost predicate HasSegment(path: string, x: string) {
    exists i: nat, j: nat :: SegmentAt(path, i, j) && x == path[i..j]
  }

  lemma SegmentInRest(path: string, slash: nat, x: string)
    requires slash < |path| && path[slash] == '/' && HasSegment(path[slash + 1..], x)
    ensures HasSegment(path, x)
  {
    var i: nat, j: nat :| SegmentAt(path[slash + 1..], i, j) && x == path[slash + 1..][i..j];
    SegmentBehind(path, slash, i + slash + 1, j + slash + 1);
    assert SegmentAt(path, i + slash + 1, j + slash + 1);
  }

  lemma SegmentFirstOrRest(path: string, slash: nat, x: string)
    requires slash < |path| && path[slash] == '/' && (forall k :: 0 <= k < slash ==> path[k] != '/')
    requires HasSegment(path, x)
    ensures x == path[..slash] || HasSegment(path[slash + 1..], x)
  {
    var i: nat, j: nat :| SegmentAt(path, i, j) && x == path[i..j];
    if i > slash {
      SegmentBehind(path, slash, i, j);
      assert SegmentAt(path[slash + 1..], i - slash - 1, j - slash - 1);
    } else {
      assert i == 0 && j == slash;
    }
  }

  /** `split` yields the components and nothing else. */
  lemma {:induction false} SegmentsAre(path: string, x: string)
    ensures x in Segments(path) <==> HasSegment(path, x)
    decreases |path|
  {
    var slash := FirstSlash(path);
    assert SegmentAt(path, 0, slash) && path[0..slash] == path[..slash];
    if slash == |path| {
      OneSegment(path);
      assert path[0..slash] == path;
      assert forall i: nat, j: nat :: SegmentAt(path, i, j) ==> i == 0 && j == slash;
    } else {
      SegmentsSplit(path, slash);
      OneSegment(path[..slash]);
      SegmentsAre(path[slash + 1..], x);
      if HasSegment(path[slash + 1..], x) {
        SegmentInRest(path, slash, x);
      }
      if HasSegment(path, x) {
        SegmentFirstOrRest(path, slash, x);
      }
    }
  }

  lemma LastSegmentIs(path: string, i: nat)
    requires SegmentAt(path, i, |path|)
    ensures LastSegment(path) == path[i..]
  {
    if i > 0 {
      SegmentsSplit(path, i - 1);
    }
    OneSegment(path[i..]);
    assert i == 0 ==> path[i..] == path;
  }

  lemma LastSegmentExists(path: string) returns (i: nat)
    ensures SegmentAt(path, i, |path|)
  {
    i := |path|;
    while i > 0 && path[i - 1] != '/'
      invariant i <= |path| && forall k :: i <= k < |path| ==> path[k] != '/'
    {
      i := i - 1;
    }
  }

  // ---------------------------------------------------------------- entries

  /** The entry is taken literally, up to case, and names the path or a directory above it. */
  ghost predicate Covers(entry: string, path: string) {
    !Pattern(entry)
    && (AsciiLower(path) == AsciiLower(entry)
        || exists rest :: AsciiLower(path) == AsciiLower(entry) + "/" + rest)
  }

  predicate Pattern(entry: string) {
    exists k :: 0 <= k < |entry| && entry[k] in {'*', '?', '[', '{'}
  }

  lemma PatternIff(entry: string)
    ensures IsGlob(entry) <==> Pattern(entry)
  {
  }

  lemma EntryIff(path: string, entry: string)
    ensures MatchesEntry(path, entry) <==> path == entry || exists rest :: path == entry + "/" + rest
  {
    if |path| > |entry| && path[|entry|] == '/' && StartsWith(path, entry) {
      assert path == entry + "/" + path[|entry| + 1..];
    }
    if rest :| path == entry + "/" + rest {
      assert path[..|entry|] == entry;
    }
  }

  lemma {:induction false} LoweredAre(entries: seq<string>, x: string)
    ensures x in Lowered(entries) <==> exists e :: e in entries && !Pattern(e) && x == AsciiLower(e)
  {
    if entries != [] {
      LoweredAre(entries[1..], x);
      PatternIff(entries[0]);
      assert entries == [entries[0]] + entries[1..];
    }
  }

  lemma {:induction false} GlobsAre(entries: seq<string>, x: string)
    ensures x in Globs(entries) <==> x in entries && Pattern(x)
  {
    if entries != [] {
      GlobsAre(entries[1..], x);
      PatternIff(entries[0]);
      assert entries == [entries[0]] + entries[1..];
    }
  }

  /** Some literal entry covers the path. */
  lemma LiteralIff(path: string, entries: seq<string>)
    ensures MatchesAny(AsciiLower(path), Lowered(entries)) <==> exists e :: e in entries && Covers(e, path)
  {
    var lowered := Lowered(entries);
    if i :| 0 <= i < |lowered| && MatchesEntry(AsciiLower(path), lowered[i]) {
      LoweredAre(entries, lowered[i]);
      EntryIff(AsciiLower(path), lowered[i]);
    }
    if e :| e in entries && Covers(e, path) {
      LoweredAre(entries, AsciiLower(e));
      EntryIff(AsciiLower(path), AsciiLower(e));
      var i :| 0 <= i < |lowered| && lowered[i] == AsciiLower(e);
    }
  }

  lemma PatternMatchIff(glob: Glob, path: string, entries: seq<string>)
    ensures GlobMatchesAny(glob, path, Globs(entries)) <==> exists e :: e in entries && Pattern(e) && glob(path, e)
  {
    var globs := Globs(entries);
    if i :| 0 <= i < |globs| && glob(path, globs[i]) {
      GlobsAre(entries, globs[i]);
    }
    if e :| e in entries && Pattern(e) && glob(path, e) {
      GlobsAre(entries, e);
      var i :| 0 <= i < |globs| && globs[i] == e;
    }
  }

  // ---------------------------------------------------------------- extensions

  /** The file name is a stem, a dot, and an extension of the configuration up to case. */
  ghost predicate HasConfiguredExtension(c: Config, path: string) {
    exists i: nat, stem, extension ::
      NameSplits(path, i, stem, extension)
      && (exists e :: e in c.extensions && AsciiLower(e) == AsciiLower(extension))
  }

  ghost predicate NameSplits(path: string, i: nat, stem: string, extension: string) {
    SegmentAt(path, i, |path|) && SplitsAtDot(path[i..], stem, extension)
  }

  lemma LowerDot(s: string, k: nat)
    requires k < |s|
    ensures AsciiLower(s)[k] == '.' <==> s[k] == '.'
    ensures AsciiLower(s)[k] == '/' <==> s[k] == '/'
  {
  }

  lemma LowerTail(s: string, k: nat)
    requires k <= |s|
    ensures AsciiLower(s)[k..] == AsciiLower(s[k..])
  {
  }

  lemma LastDotIs(name: string, k: nat)
    requires k < |name| && name[k] == '.' && forall j :: k < j < |name| ==> name[j] != '.'
    ensures LastDot(name) == k
  {
  }

  lemma LowerLastSegment(path: string, i: nat)
    requires SegmentAt(path, i, |path|)
    ensures LastSegment(AsciiLower(path)) == AsciiLower(path[i..])
  {
    var lower := AsciiLower(path);
    forall k | 0 <= k < |path| ensures lower[k] == '/' <==> path[k] == '/' {
      LowerDot(path, k);
    }
    LastSegmentIs(lower, i);
    LowerTail(path, i);
  }

  /** The extension of a lowered name, with its dot. */
  function DottedEnd(name: string): Option<string> {
    var dot := LastDot(name);
    if dot <= 0 || dot == |name| - 1 then None else Some(name[dot..])
  }

  ghost predicate SplitsAtDot(name: string, stem: string, extension: string) {
    name == stem + "." + extension && stem != "" && extension != "" && '.' !in extension
  }

  lemma EndBehindDot(stem: string, extension: string)
    requires stem != "" && extension != "" && '.' !in extension
    ensures DottedEnd(stem + "." + extension) == Some("." + extension)
  {
    var name, k := stem + "." + extension, |stem|;
    assert name[k] == '.' && name[k..] == "." + extension;
    forall j | k < j < |name| ensures name[j] != '.' {
      assert name[j] == extension[j - k - 1];
    }
    LastDotIs(name, k);
  }

  lemma LowerSplit(stem: string, extension: string)
    ensures AsciiLower(stem + "." + extension) == AsciiLower(stem) + "." + AsciiLower(extension)
    ensures '.' in AsciiLower(extension) ==> '.' in extension
  {
  }

  lemma SplitGivesEnd(name: string, stem: string, extension: string)
    requires SplitsAtDot(name, stem, extension)
    ensures DottedEnd(AsciiLower(name)) == Some("." + AsciiLower(extension))
  {
    LowerSplit(stem, extension);
    EndBehindDot(AsciiLower(stem), AsciiLower(extension));
  }

  lemma EndGivesSplit(name: string) returns (stem: string, extension: string)
    requires DottedEnd(AsciiLower(name)).Some?
    ensures SplitsAtDot(name, stem, extension)
  {
    var lower := AsciiLower(name);
    var dot := LastDot(lower);
    LowerDot(name, dot);
    stem, extension := name[..dot], name[dot + 1..];
    assert name == stem + "." + extension;
    forall j | 0 <= j < |extension| ensures extension[j] != '.' {
      LowerDot(name, dot + 1 + j);
    }
  }

  lemma OneLastSegment(path: string, i: nat, j: nat)
    requires SegmentAt(path, i, |path|) && SegmentAt(path, j, |path|)
    ensures i == j
  {
  }

  lemma SourceExtensionIff(c: Config, m: Matchers, path: string)
    requires MatchersFor(c, m)
    ensures HasSourceExtension(m, path) <==> HasConfiguredExtension(c, path)
  {
    var i := LastSegmentExists(path);
    LowerLastSegment(path, i);
    assert Extension(AsciiLower(path)) == DottedEnd(AsciiLower(path[i..]));
    if HasSourceExtension(m, path) {
      var stem, extension := EndGivesSplit(path[i..]);
      SplitGivesEnd(path[i..], stem, extension);
      assert NameSplits(path, i, stem, extension);
      var e :| e in c.extensions && "." + AsciiLower(extension) == "." + AsciiLower(e);
      assert ("." + AsciiLower(extension))[1..] == AsciiLower(extension) && ("." + AsciiLower(e))[1..] == AsciiLower(e);
    }
    if HasConfiguredExtension(c, path) {
      var k: nat, stem, extension :|
        NameSplits(path, k, stem, extension)
        && (exists e :: e in c.extensions && AsciiLower(e) == AsciiLower(extension));
      OneLastSegment(path, i, k);
      SplitGivesEnd(path[i..], stem, extension);
    }
  }

  // ---------------------------------------------------------------- the verdicts

  ghost predicate ExcludedByName(c: Config, name: string) {
    exists d :: d in c.excludedDirs && AsciiLower(d) == AsciiLower(name)
  }

  ghost predicate Selected(c: Config, glob: Glob, path: string) {
    c.includes == []
    || (exists e :: e in c.includes && Covers(e, path))
    || (exists e :: e in c.includes && Pattern(e) && glob(path, e))
  }

  ghost predicate Rejected(c: Config, glob: Glob, path: string) {
    (exists e :: e in c.excludes && Covers(e, path)) || (exists e :: e in c.excludes && Pattern(e) && glob(path, e))
  }

  lemma ExcludedNameIff(c: Config, m: Matchers, name: string)
    requires MatchersFor(c, m)
    ensures AsciiLower(name) in m.excludedDirs <==> ExcludedByName(c, name)
  {
  }

  lemma ExcludedSegments(c: Config, m: Matchers, path: string)
    requires MatchersFor(c, m)
    ensures var segments := Segments(AsciiLower(path));
      (exists k :: 0 <= k < |segments| && segments[k] in m.excludedDirs)
      <==> exists i: nat, j: nat :: SegmentAt(path, i, j) && ExcludedByName(c, path[i..j])
  {
    LowerSegments(path);
    var own, segments := Segments(path), Segments(AsciiLower(path));
    if k :| 0 <= k < |segments| && segments[k] in m.excludedDirs {
      ExcludedSegmentIsThere(c, m, path, own[k]);
    }
    if i: nat, j: nat :| SegmentAt(path, i, j) && ExcludedByName(c, path[i..j]) {
      SegmentsAre(path, path[i..j]);
      ExcludedNameIff(c, m, path[i..j]);
      var k :| 0 <= k < |own| && own[k] == path[i..j];
      assert segments[k] == AsciiLower(own[k]);
    }
  }

  lemma ExcludedSegmentIsThere(c: Config, m: Matchers, path: string, name: string)
    requires MatchersFor(c, m) && name in Segments(path) && AsciiLower(name) in m.excludedDirs
    ensures exists i: nat, j: nat :: SegmentAt(path, i, j) && ExcludedByName(c, path[i..j])
  {
    SegmentsAre(path, name);
    ExcludedNameIff(c, m, name);
  }

  /**
   A file is in scope exactly when none of its components is an excluded directory, the
   includes select it or there are none, no exclude rejects it, and its extension is one of
   the configured ones.
   */
  lemma InScopeIff(c: Config, m: Matchers, glob: Glob, path: string)
    requires MatchersFor(c, m)
    ensures IsInScope(c, m, glob, path) <==>
      (forall i: nat, j: nat :: SegmentAt(path, i, j) ==> !ExcludedByName(c, path[i..j]))
      && Selected(c, glob, path) && !Rejected(c, glob, path) && HasConfiguredExtension(c, path)
  {
    ExcludedSegments(c, m, path);
    LiteralIff(path, c.includes);
    LiteralIff(path, c.excludes);
    PatternMatchIff(glob, path, c.includes);
    PatternMatchIff(glob, path, c.excludes);
    SourceExtensionIff(c, m, path);
  }

  // ---------------------------------------------------------------- the walk

  /** The directory at a slash of a literal include is the path, or lies above it. */
  ghost predicate NearEntry(path: string, entry: string, i: nat) {
    !Pattern(entry) && SlashAt(entry, i)
    && (AsciiLower(path) == AsciiLower(entry)[..i] || StartsWith(AsciiLower(path), AsciiLower(entry)[..i] + "/"))
  }

  ghost predicate NearInclude(c: Config, path: string) {
    exists e, i: nat :: e in c.includes && NearEntry(path, e, i)
  }

  lemma SlashPrefix(path: string, entry: string, i: nat, prefix: string)
    requires SlashAt(entry, i) && !Pattern(entry) && prefix == AsciiLower(entry)[..i + 1]
    ensures UnderPrefix(AsciiLower(path), prefix) <==> NearEntry(path, entry, i)
  {
    LowerSlash(entry, i);
    var lower := AsciiLower(entry);
    assert prefix == lower[..i] + "/" && prefix[..|prefix| - 1] == lower[..i];
  }

  lemma PrefixIsNear(c: Config, m: Matchers, path: string, prefix: string)
    requires MatchersFor(c, m) && prefix in m.ancestorPrefixes && UnderPrefix(AsciiLower(path), prefix)
    ensures NearInclude(c, path)
  {
    var e, i :| 0 <= e < |m.includeLower| && SlashAt(m.includeLower[e], i) && prefix == m.includeLower[e][..i + 1];
    LoweredAre(c.includes, m.includeLower[e]);
    var entry :| entry in c.includes && !Pattern(entry) && m.includeLower[e] == AsciiLower(entry);
    LowerSlash(entry, i);
    SlashPrefix(path, entry, i, prefix);
  }

  lemma PrefixIsListed(c: Config, m: Matchers, entry: string, i: nat)
    requires MatchersFor(c, m) && entry in c.includes && !Pattern(entry) && SlashAt(entry, i)
    ensures i < |AsciiLower(entry)| && AsciiLower(entry)[..i + 1] in m.ancestorPrefixes
  {
    LoweredAre(c.includes, AsciiLower(entry));
    var e :| 0 <= e < |m.includeLower| && m.includeLower[e] == AsciiLower(entry);
    LowerSlash(entry, i);
    assert IsAncestorPrefix(m.includeLower[e][..i + 1], m.includeLower);
  }

  lemma NearHasPrefix(c: Config, m: Matchers, path: string, entry: string, i: nat)
    requires MatchersFor(c, m) && entry in c.includes && NearEntry(path, entry, i)
    ensures exists k :: 0 <= k < |m.ancestorPrefixes| && UnderPrefix(AsciiLower(path), m.ancestorPrefixes[k])
  {
    PrefixIsListed(c, m, entry, i);
    SlashPrefix(path, entry, i, AsciiLower(entry)[..i + 1]);
  }

  lemma NearIncludeIff(c: Config, m: Matchers, path: string)
    requires MatchersFor(c, m)
    ensures (exists k :: 0 <= k < |m.ancestorPrefixes| && UnderPrefix(AsciiLower(path), m.ancestorPrefixes[k]))
       <==> NearInclude(c, path)
  {
    if k :| 0 <= k < |m.ancestorPrefixes| && UnderPrefix(AsciiLower(path), m.ancestorPrefixes[k]) {
      PrefixIsNear(c, m, path, m.ancestorPrefixes[k]);
    }
    if entry, i: nat :| entry in c.includes && NearEntry(path, entry, i) {
      NearHasPrefix(c, m, path, entry, i);
    }
  }

  /**
   A walk enters a directory exactly when its name is not excluded, no exclude rejects it,
   and the includes select it, may lie below it, or hold a pattern; of the files it keeps
   those with a configured extension.
   */
  lemma KeptIff(c: Config, m: Matchers, glob: Glob, path: string, i: nat)
    requires MatchersFor(c, m) && path != "" && SegmentAt(path, i, |path|)
    ensures KeepDuringWalk(c, m, glob, path, true) <==>
      !ExcludedByName(c, path[i..]) && !Rejected(c, glob, path)
      && (c.includes == [] || (exists e :: e in c.includes && (Covers(e, path) || Pattern(e))) || NearInclude(c, path))
    ensures KeepDuringWalk(c, m, glob, path, false) <==> HasConfiguredExtension(c, path)
  {
    LastSegmentIs(path, i);
    LiteralIff(path, c.includes);
    LiteralIff(path, c.excludes);
    PatternMatchIff(glob, path, c.excludes);
    NearIncludeIff(c, m, path);
    SourceExtensionIff(c, m, path);
    if m.includeGlobs != [] {
      GlobsAre(c.includes, m.includeGlobs[0]);
    }
    forall e | e in c.includes && Pattern(e) ensures m.includeGlobs != [] {
      GlobsAre(c.includes, e);
    }
  }
}
