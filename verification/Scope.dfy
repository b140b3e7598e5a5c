/**
 The workspace scope filter (config.rs 366-439, 663-796, 1043-1070): which paths are in
 scope, which a walk may prune, and why pruning loses nothing.

 Glob matching is a parameter: `glob(path, entry)` says whether a glob entry matches.
 */
module Scope {
  import opened Basics
  import opened Ordering

  datatype Config = Config(
    includes: seq<string>, excludes: seq<string>, excludedDirs: seq<string>, extensions: seq<string>)

  datatype Matchers = Matchers(
    excludeLower: seq<string>, includeLower: seq<string>, excludedDirs: set<string>, extensions: set<string>,
    ancestorPrefixes: seq<string>, includeGlobs: seq<string>, excludeGlobs: seq<string>)

  type Glob = (string, string) -> bool

  predicate IsGlob(entry: string) { '*' in entry || '?' in entry || '[' in entry || '{' in entry }

  // ---------------------------------------------------------------- paths

  /** `split('/')`. */
  function Segments(path: string): (r: seq<string>)
    ensures r != []
  {
    if path == "" then [""]
    else if path[0] == '/' then [""] + Segments(path[1..])
    else
      var rest := Segments(path[1..]);
      [[path[0]] + rest[0]] + rest[1..]
  }

  /** `rsplit('/').next()`. */
  function LastSegment(path: string): string { Segments(path)[|Segments(path)| - 1] }

  /** The extension with its dot, unless the dot is first or last in the name. */
  function Extension(path: string): Option<string> {
    var name := LastSegment(path);
    var dot := LastDot(name);
    if dot <= 0 || dot == |name| - 1 then None else Some(name[dot..])
  }

  /** The entry is the path, or a parent directory of it. */
  predicate MatchesEntry(path: string, entry: string) {
    path == entry || (|path| > |entry| && path[|entry|] == '/' && StartsWith(path, entry))
  }

  predicate MatchesAny(path: string, entries: seq<string>) {
    exists i :: 0 <= i < |entries| && MatchesEntry(path, entries[i])
  }

  predicate GlobMatchesAny(glob: Glob, path: string, entries: seq<string>) {
    exists i :: 0 <= i < |entries| && glob(path, entries[i])
  }

  // ---------------------------------------------------------------- the two verdicts

  predicate HasSourceExtension(m: Matchers, path: string) {
    var extension := Extension(AsciiLower(path));
    extension.Some? && extension.value in m.extensions
  }

  /** A directory is, or lies below, the directory the prefix names; `prefix` ends with a slash. */
  predicate UnderPrefix(path: string, prefix: string) {
    prefix != "" && (path == prefix[..|prefix| - 1] || StartsWith(path, prefix))
  }

  predicate ExcludedName(m: Matchers, path: string) { AsciiLower(LastSegment(path)) in m.excludedDirs }

  predicate IncludeMayContain(c: Config, m: Matchers, path: string) {
    c.includes == []
    || MatchesAny(AsciiLower(path), m.includeLower)
    || (exists i :: 0 <= i < |m.ancestorPrefixes| && UnderPrefix(AsciiLower(path), m.ancestorPrefixes[i]))
    || m.includeGlobs != []
  }

  predicate KeepDuringWalk(c: Config, m: Matchers, glob: Glob, path: string, isDir: bool) {
    if path == "" then true
    else if isDir then
      !ExcludedName(m, path)
      && !MatchesAny(AsciiLower(path), m.excludeLower)
      && !GlobMatchesAny(glob, path, m.excludeGlobs)
      && IncludeMayContain(c, m, path)
    else HasSourceExtension(m, path)
  }

  predicate AllowedByScope(c: Config, m: Matchers, glob: Glob, path: string) {
    var lower := AsciiLower(path);
    (forall i :: 0 <= i < |Segments(lower)| ==> Segments(lower)[i] !in m.excludedDirs)
    && (c.includes == [] || MatchesAny(lower, m.includeLower) || GlobMatchesAny(glob, path, m.includeGlobs))
    && !MatchesAny(lower, m.excludeLower) && !GlobMatchesAny(glob, path, m.excludeGlobs)
  }

  predicate IsInScope(c: Config, m: Matchers, glob: Glob, path: string) {
    AllowedByScope(c, m, glob, path) && HasSourceExtension(m, path)
  }

  // ---------------------------------------------------------------- building the matchers

  function Lowered(entries: seq<string>): seq<string> {
    if entries == [] then []
    else (if IsGlob(entries[0]) then [] else [AsciiLower(entries[0])]) + Lowered(entries[1..])
  }

  function Globs(entries: seq<string>): seq<string> {
    if entries == [] then [] else (if IsGlob(entries[0]) then [entries[0]] else []) + Globs(entries[1..])
  }

  /** The prefix of some entry up to and including one of its slashes. */
  ghost predicate IsAncestorPrefix(prefix: string, entries: seq<string>) {
    exists e, i :: 0 <= e < |entries| && SlashAt(entries[e], i) && prefix == entries[e][..i + 1]
  }

  predicate SlashAt(s: string, i: int) { 0 <= i < |s| && s[i] == '/' }

  ghost predicate PrefixesOf(prefixes: seq<string>, entries: seq<string>) {
    forall p :: p in prefixes <==> IsAncestorPrefix(p, entries)
  }

  /** What the matchers are for a configuration. */
  ghost predicate MatchersFor(c: Config, m: Matchers) {
    m.excludeLower == Lowered(c.excludes) && m.includeLower == Lowered(c.includes)
    && m.includeGlobs == Globs(c.includes) && m.excludeGlobs == Globs(c.excludes)
    && m.excludedDirs == (set d | d in c.excludedDirs :: AsciiLower(d))
    && m.extensions == (set e | e in c.extensions :: "." + AsciiLower(e))
    && PrefixesOf(m.ancestorPrefixes, m.includeLower)
  }

  /** The next slash at or after `from`, or the length. */
  method FindSlash(s: string, from: nat) returns (i: nat)
    requires from <= |s|
    ensures from <= i <= |s| && (i < |s| ==> s[i] == '/') && forall k :: from <= k < i ==> s[k] != '/'
  {
    i := from;
    while i < |s| && s[i] != '/'
      invariant from <= i <= |s| && forall k :: from <= k < i ==> s[k] != '/'
    {
      i := i + 1;
    }
  }

  /** The prefixes of one entry at its slashes below `n`. */
  ghost predicate PrefixesBelow(prefixes: seq<string>, s: string, n: nat) {
    forall p :: p in prefixes <==> exists i :: SlashAt(s, i) && i < n && p == s[..i + 1]
  }

  lemma NextPrefix(prefixes: seq<string>, s: string, pos: nat, slash: nat)
    requires PrefixesBelow(prefixes, s, pos) && pos <= slash && SlashAt(s, slash)
    requires forall k :: pos <= k < slash ==> s[k] != '/'
    ensures PrefixesBelow(prefixes + [s[..slash + 1]], s, slash + 1)
  {
    var more := prefixes + [s[..slash + 1]];
    forall p ensures p in more <==> exists i :: SlashAt(s, i) && i < slash + 1 && p == s[..i + 1] {
      if i :| SlashAt(s, i) && i < slash + 1 && p == s[..i + 1] {
        assert i < pos || i == slash;
      }
      if p in prefixes {
        var i :| SlashAt(s, i) && i < pos && p == s[..i + 1];
      }
    }
  }

  method AncestorPrefixes(lower: string) returns (prefixes: seq<string>)
    ensures PrefixesBelow(prefixes, lower, |lower|)
  {
    prefixes := [];
    var pos := 0;
    while true
      invariant pos <= |lower| && PrefixesBelow(prefixes, lower, pos)
      decreases |lower| - pos
    {
      var slash := FindSlash(lower, pos);
      if slash == |lower| {
        return;
      }
      assert lower[..slash] + "/" == lower[..slash + 1];
      NextPrefix(prefixes, lower, pos, slash);
      prefixes := prefixes + [lower[..slash] + "/"];
      pos := slash + 1;
    }
  }

  function TextKey(s: string): Key { [Text(s)] }

  lemma OneMoreEntry(prefixes: seq<string>, own: seq<string>, entries: seq<string>, entry: string)
    requires PrefixesOf(prefixes, entries) && PrefixesBelow(own, entry, |entry|)
    ensures PrefixesOf(prefixes + own, entries + [entry])
  {
    var all := entries + [entry];
    forall p ensures p in prefixes + own <==> IsAncestorPrefix(p, all) {
      if p in prefixes {
        var e, i :| 0 <= e < |entries| && SlashAt(entries[e], i) && p == entries[e][..i + 1];
        assert all[e] == entries[e];
      }
      if p in own {
        var i :| SlashAt(entry, i) && i < |entry| && p == entry[..i + 1];
        assert all[|entries|] == entry;
      }
      if e, i :| 0 <= e < |all| && SlashAt(all[e], i) && p == all[e][..i + 1] {
        if e < |entries| {
          assert all[e] == entries[e];
        }
      }
    }
  }

  lemma {:induction false} LoweredConcat(a: seq<string>, b: seq<string>)
    ensures Lowered(a + b) == Lowered(a) + Lowered(b)
  {
    if a == [] {
      assert a + b == b;
    } else {
      assert (a + b)[0] == a[0] && (a + b)[1..] == a[1..] + b;
      LoweredConcat(a[1..], b);
    }
  }

  lemma {:induction false} GlobsConcat(a: seq<string>, b: seq<string>)
    ensures Globs(a + b) == Globs(a) + Globs(b)
  {
    if a == [] {
      assert a + b == b;
    } else {
      assert (a + b)[0] == a[0] && (a + b)[1..] == a[1..] + b;
      GlobsConcat(a[1..], b);
    }
  }

  method Build(c: Config) returns (m: Matchers)
    ensures MatchersFor(c, m)
  {
    var includeLower, prefixes, includeGlobs := [], [], [];
    var i := 0;
    while i < |c.includes|
      invariant i <= |c.includes|
      invariant includeLower == Lowered(c.includes[..i]) && includeGlobs == Globs(c.includes[..i])
      invariant PrefixesOf(prefixes, includeLower)
    {
      var entry := c.includes[i];
      assert c.includes[..i + 1] == c.includes[..i] + [entry] && [entry][1..] == [];
      LoweredConcat(c.includes[..i], [entry]);
      GlobsConcat(c.includes[..i], [entry]);
      if IsGlob(entry) {
        includeGlobs := includeGlobs + [entry];
      } else {
        var lower := AsciiLower(entry);
        var own := AncestorPrefixes(lower);
        OneMoreEntry(prefixes, own, includeLower, lower);
        includeLower := includeLower + [lower];
        prefixes := prefixes + own;
      }
      i := i + 1;
    }
    assert c.includes[..i] == c.includes;
    SortKeepsMembers(prefixes, TextKey);
    DedupKeepsMembers(StableSort(prefixes, TextKey));
    prefixes := DedupNeighbours(StableSort(prefixes, TextKey));
    m := Matchers(Lowered(c.excludes), includeLower, set d | d in c.excludedDirs :: AsciiLower(d),
                  set e | e in c.extensions :: "." + AsciiLower(e), prefixes, includeGlobs, Globs(c.excludes));
  }

  // ---------------------------------------------------------------- directories above a path

  /** `path[..i]` is a directory above `path`. */
  predicate DirectoryAt(path: string, i: nat) { SlashAt(path, i) && i > 0 }

  lemma {:induction false} LowerSlice(s: string, i: nat)
    requires i <= |s|
    ensures AsciiLower(s[..i]) == AsciiLower(s)[..i]
  {
  }

  lemma LowerSlash(s: string, i: nat)
    ensures SlashAt(s, i) <==> SlashAt(AsciiLower(s), i)
  {
  }

  /** Put a character in front of the first segment. */
  function Prefixed(ch: char, segments: seq<string>): seq<string>
    requires segments != []
  {
    [[ch] + segments[0]] + segments[1..]
  }

  lemma PrefixedConcat(ch: char, a: seq<string>, b: seq<string>)
    requires a != []
    ensures Prefixed(ch, a + b) == Prefixed(ch, a) + b
  {
    assert (a + b)[0] == a[0] && (a + b)[1..] == a[1..] + b;
  }

  lemma SegmentsCons(ch: char, rest: string)
    ensures Segments([ch] + rest) == if ch == '/' then [""] + Segments(rest) else Prefixed(ch, Segments(rest))
  {
    assert ([ch] + rest)[1..] == rest;
  }

  lemma ConsSplit(a: string, t: string)
    requires a != ""
    ensures a == [a[0]] + a[1..] && a + t == [a[0]] + (a[1..] + t)
  {
  }

  /** What follows a slash is appended to the segments before it. */
  lemma {:induction false} SegmentsJoin(a: string, t: string, tail: seq<string>)
    requires Segments(t) == [""] + tail
    ensures Segments(a + t) == Segments(a) + tail
  {
    if a == "" {
      assert a + t == t;
    } else {
      SegmentsJoin(a[1..], t, tail);
      ConsSplit(a, t);
      ConsJoin(a[0], a[1..], t, tail);
    }
  }

  lemma ConsJoin(ch: char, rest: string, t: string, tail: seq<string>)
    requires Segments(rest + t) == Segments(rest) + tail
    ensures Segments([ch] + (rest + t)) == Segments([ch] + rest) + tail
  {
    SegmentsCons(ch, rest + t);
    SegmentsCons(ch, rest);
    if ch == '/' {
      assert [""] + (Segments(rest) + tail) == ([""] + Segments(rest)) + tail;
    } else {
      PrefixedConcat(ch, Segments(rest), tail);
    }
  }

  /** The segments of a path are those before a slash, then those after it. */
  lemma SegmentsSplit(path: string, i: nat)
    requires SlashAt(path, i)
    ensures Segments(path) == Segments(path[..i]) + Segments(path[i + 1..])
  {
    SegmentsCons('/', path[i + 1..]);
    SegmentsJoin(path[..i], ['/'] + path[i + 1..], Segments(path[i + 1..]));
    assert path == path[..i] + (['/'] + path[i + 1..]);
  }

  function LowerAll(segments: seq<string>): seq<string> {
    seq(|segments|, i requires 0 <= i < |segments| => AsciiLower(segments[i]))
  }

  lemma LowerPrefixed(ch: char, segments: seq<string>)
    requires segments != []
    ensures LowerAll(Prefixed(ch, segments)) == Prefixed(Lower(ch), LowerAll(segments))
  {
    assert ([ch] + segments[0])[1..] == segments[0];
    assert AsciiLower([ch] + segments[0]) == [Lower(ch)] + AsciiLower(segments[0]);
  }

  lemma {:induction false} LowerSegments(path: string)
    ensures Segments(AsciiLower(path)) == LowerAll(Segments(path))
  {
    if path != "" {
      var ch, rest := path[0], path[1..];
      LowerSegments(rest);
      SegmentsCons(ch, rest);
      SegmentsCons(Lower(ch), AsciiLower(rest));
      assert path == [ch] + rest && AsciiLower(path) == [Lower(ch)] + AsciiLower(rest);
      if ch == '/' {
        assert LowerAll([""] + Segments(rest)) == [""] + LowerAll(Segments(rest));
      } else {
        LowerPrefixed(ch, Segments(rest));
      }
    }
  }

  // ---------------------------------------------------------------- what is in scope is not pruned

  lemma EntryAboveDirectory(path: string, i: nat, entry: string)
    requires SlashAt(path, i) && MatchesEntry(path[..i], entry)
    ensures MatchesEntry(path, entry)
  {
    if path[..i] != entry {
      assert path[..i][..|entry|] == path[..|entry|];
    }
  }

  /** An included path lies under the entry, or above it where the entry has a slash. */
  lemma EntryAroundDirectory(path: string, i: nat, entry: string)
    requires SlashAt(path, i) && MatchesEntry(path, entry)
    ensures MatchesEntry(path[..i], entry) || (SlashAt(entry, i) && entry[..i] == path[..i])
  {
    assert path[..|entry|] == entry;
    if i < |entry| {
      assert entry[i] == path[i] && entry[..i] == path[..i];
    } else {
      assert path[..i][..|entry|] == entry;
    }
  }

  lemma ExcludedNameAbove(m: Matchers, path: string, i: nat)
    requires DirectoryAt(path, i) && ExcludedName(m, path[..i])
    ensures exists k :: 0 <= k < |Segments(AsciiLower(path))| && Segments(AsciiLower(path))[k] in m.excludedDirs
  {
    var lower := AsciiLower(path);
    LowerSlice(path, i);
    LowerSegments(path[..i]);
    SegmentsSplit(lower, i);
    var k := |Segments(lower[..i])| - 1;
    assert Segments(lower)[k] == Segments(lower[..i])[k] == AsciiLower(LastSegment(path[..i]));
  }

  /** An entry with a slash at `i` gives the directory above that slash a prefix to lie under. */
  lemma PrefixKeepsDirectory(prefixes: seq<string>, entries: seq<string>, e: nat, directory: string)
    requires PrefixesOf(prefixes, entries) && e < |entries| && SlashAt(entries[e], |directory|)
    requires entries[e][..|directory|] == directory
    ensures exists k :: 0 <= k < |prefixes| && UnderPrefix(directory, prefixes[k])
  {
    var prefix := entries[e][..|directory| + 1];
    assert IsAncestorPrefix(prefix, entries);
    var k :| 0 <= k < |prefixes| && prefixes[k] == prefix;
    assert prefix[..|prefix| - 1] == directory;
    assert UnderPrefix(directory, prefixes[k]);
  }

  lemma EntryKeepsDirectory(c: Config, m: Matchers, path: string, i: nat, e: nat)
    requires PrefixesOf(m.ancestorPrefixes, m.includeLower) && DirectoryAt(path, i)
    requires e < |m.includeLower| && MatchesEntry(AsciiLower(path), m.includeLower[e])
    ensures IncludeMayContain(c, m, path[..i])
  {
    LowerSlice(path, i);
    EntryAroundDirectory(AsciiLower(path), i, m.includeLower[e]);
    if !MatchesEntry(AsciiLower(path)[..i], m.includeLower[e]) {
      PrefixKeepsDirectory(m.ancestorPrefixes, m.includeLower, e, AsciiLower(path)[..i]);
    }
  }

  lemma IncludeAbove(c: Config, m: Matchers, glob: Glob, path: string, i: nat)
    requires MatchersFor(c, m) && DirectoryAt(path, i)
    requires c.includes == []
      || MatchesAny(AsciiLower(path), m.includeLower) || GlobMatchesAny(glob, path, m.includeGlobs)
    ensures IncludeMayContain(c, m, path[..i])
  {
    if e :| 0 <= e < |m.includeLower| && MatchesEntry(AsciiLower(path), m.includeLower[e]) {
      EntryKeepsDirectory(c, m, path, i, e);
    }
  }

  /** A path that scope allows has every directory above it kept, unless an exclude glob matches that directory. */
  lemma DirectoriesAboveAreKept(c: Config, m: Matchers, glob: Glob, path: string, i: nat)
    requires MatchersFor(c, m) && AllowedByScope(c, m, glob, path) && DirectoryAt(path, i)
    ensures KeepDuringWalk(c, m, glob, path[..i], true) <==> !GlobMatchesAny(glob, path[..i], m.excludeGlobs)
  {
    var lower := AsciiLower(path);
    LowerSlice(path, i);
    LowerSlash(path, i);
    IncludeAbove(c, m, glob, path, i);
    if ExcludedName(m, path[..i]) {
      ExcludedNameAbove(m, path, i);
    }
    if e :| 0 <= e < |m.excludeLower| && MatchesEntry(lower[..i], m.excludeLower[e]) {
      EntryAboveDirectory(lower, i, m.excludeLower[e]);
    }
  }

  /**
   Without exclude globs, the walk keeps every file in scope and every directory
   above it.
   */
  lemma InScopeIsKept(c: Config, m: Matchers, glob: Glob, path: string)
    requires MatchersFor(c, m) && Globs(c.excludes) == [] && IsInScope(c, m, glob, path)
    ensures KeepDuringWalk(c, m, glob, path, false)
    ensures forall i: nat :: DirectoryAt(path, i) ==> KeepDuringWalk(c, m, glob, path[..i], true)
  {
    forall i: nat | DirectoryAt(path, i) ensures KeepDuringWalk(c, m, glob, path[..i], true) {
      DirectoriesAboveAreKept(c, m, glob, path, i);
    }
  }

  // ---------------------------------------------------------------- the walk

  datatype Node = FileNode(name: string) | DirNode(name: string, children: seq<Node>)

  /** Names are single path components. */
  predicate WellNamed(n: Node) {
    n.name != "" && '/' !in n.name && (n.DirNode? ==> forall k :: 0 <= k < |n.children| ==> WellNamed(n.children[k]))
  }

  predicate AllWellNamed(children: seq<Node>) {
    forall k :: 0 <= k < |children| ==> WellNamed(children[k])
  }

  /** The path of an entry of a directory; the root is the empty path. */
  function Join(directory: string, name: string): string {
    if directory == "" then name else directory + "/" + name
  }

  /** Every file, depth first. */
  function AllFiles(directory: string, children: seq<Node>): seq<string>
    decreases children
  {
    if children == [] then []
    else
      (var n := children[0];
       if n.FileNode? then [Join(directory, n.name)] else AllFiles(Join(directory, n.name), n.children))
      + AllFiles(directory, children[1..])
  }

  /** The files a walk yields that skips what it may prune. */
  function Walk(c: Config, m: Matchers, glob: Glob, directory: string, children: seq<Node>): seq<string>
    decreases children
  {
    if children == [] then []
    else
      (var n := children[0];
       var path := Join(directory, n.name);
       if !KeepDuringWalk(c, m, glob, path, n.DirNode?) then []
       else if n.FileNode? then [path]
       else Walk(c, m, glob, path, n.children))
      + Walk(c, m, glob, directory, children[1..])
  }

  function Where(paths: seq<string>, p: string -> bool): seq<string> {
    if paths == [] then [] else (if p(paths[0]) then [paths[0]] else []) + Where(paths[1..], p)
  }

  lemma {:induction false} WhereConcat(a: seq<string>, b: seq<string>, p: string -> bool)
    ensures Where(a + b, p) == Where(a, p) + Where(b, p)
  {
    if a == [] {
      assert a + b == b;
    } else {
      assert (a + b)[0] == a[0] && (a + b)[1..] == a[1..] + b;
      WhereConcat(a[1..], b, p);
    }
  }

  lemma {:induction false} WhereNone(paths: seq<string>, p: string -> bool)
    requires forall i :: 0 <= i < |paths| ==> !p(paths[i])
    ensures Where(paths, p) == []
  {
    if paths != [] {
      WhereNone(paths[1..], p);
    }
  }

  lemma {:induction false} WhereSame(paths: seq<string>, p: string -> bool, q: string -> bool)
    requires forall i :: 0 <= i < |paths| ==> p(paths[i]) == q(paths[i])
    ensures Where(paths, p) == Where(paths, q)
  {
    if paths != [] {
      WhereSame(paths[1..], p, q);
    }
  }

  /** No exclude glob matches a directory above the path, from length `from` on. */
  predicate ClearFrom(m: Matchers, glob: Glob, path: string, from: nat) {
    forall i: nat :: from <= i < |path| && DirectoryAt(path, i) ==> !GlobMatchesAny(glob, path[..i], m.excludeGlobs)
  }

  function InScope(c: Config, m: Matchers, glob: Glob): string -> bool {
    (path: string) => IsInScope(c, m, glob, path)
  }

  function InScopeAndClear(c: Config, m: Matchers, glob: Glob, from: nat): string -> bool {
    (path: string) => IsInScope(c, m, glob, path) && ClearFrom(m, glob, path, from)
  }

  /** Below a directory: the path continues with a slash. */
  predicate Under(path: string, directory: string) {
    directory == "" || (|path| > |directory| && path[..|directory|] == directory && path[|directory|] == '/')
  }

  function ChildStart(directory: string): nat { if directory == "" then 0 else |directory| + 1 }

  lemma {:induction false} FilesAreUnder(directory: string, children: seq<Node>)
    requires AllWellNamed(children)
    ensures forall i :: 0 <= i < |AllFiles(directory, children)| ==> Under(AllFiles(directory, children)[i], directory)
    decreases children
  {
    if children != [] {
      var n := children[0];
      var path := Join(directory, n.name);
      FilesAreUnder(directory, children[1..]);
      if n.DirNode? {
        FilesAreUnder(path, n.children);
        var below := AllFiles(path, n.children);
        forall i | 0 <= i < |below| ensures Under(below[i], directory) {
          UnderParent(below[i], directory, n.name);
        }
      }
    }
  }

  lemma UnderParent(path: string, directory: string, name: string)
    requires name != "" && Under(path, Join(directory, name))
    ensures Under(path, directory)
  {
    if directory != "" {
      assert path[..|directory|] == path[..|Join(directory, name)|][..|directory|] == directory;
      assert path[|directory|] == path[..|Join(directory, name)|][|directory|] == '/';
    }
  }

  /** Between a directory and its entry `name` the only directory above a path is the entry itself. */
  lemma ClearThroughEntry(m: Matchers, glob: Glob, path: string, directory: string, name: string)
    requires name != "" && '/' !in name && Under(path, Join(directory, name))
    ensures var entry := Join(directory, name);
      ClearFrom(m, glob, path, ChildStart(directory))
      <==> !GlobMatchesAny(glob, entry, m.excludeGlobs) && ClearFrom(m, glob, path, ChildStart(entry))
  {
    var entry := Join(directory, name);
    var start := ChildStart(directory);
    assert path[..|entry|] == entry && DirectoryAt(path, |entry|);
    forall i: nat | start <= i < |entry| ensures !SlashAt(path, i) {
      assert path[i] == entry[i] == name[i - start];
    }
  }

  lemma ClearAtFile(m: Matchers, glob: Glob, directory: string, name: string)
    requires name != "" && '/' !in name
    ensures ClearFrom(m, glob, Join(directory, name), ChildStart(directory))
  {
    var path := Join(directory, name);
    forall i: nat | ChildStart(directory) <= i < |path| ensures !SlashAt(path, i) {
      assert path[i] == name[i - ChildStart(directory)];
    }
  }

  lemma DirectoryFiles(c: Config, m: Matchers, glob: Glob, directory: string, n: Node)
    requires MatchersFor(c, m) && n.DirNode? && WellNamed(n)
    requires var path := Join(directory, n.name);
      Where(Walk(c, m, glob, path, n.children), InScope(c, m, glob))
      == Where(AllFiles(path, n.children), InScopeAndClear(c, m, glob, ChildStart(path)))
    ensures var path := Join(directory, n.name);
      var walked := if KeepDuringWalk(c, m, glob, path, true) then Walk(c, m, glob, path, n.children) else [];
      Where(walked, InScope(c, m, glob))
      == Where(AllFiles(path, n.children), InScopeAndClear(c, m, glob, ChildStart(directory)))
  {
    var path := Join(directory, n.name);
    var below := AllFiles(path, n.children);
    var here := InScopeAndClear(c, m, glob, ChildStart(directory));
    var there := InScopeAndClear(c, m, glob, ChildStart(path));
    FilesAreUnder(path, n.children);
    forall i | 0 <= i < |below|
      ensures here(below[i]) == (!GlobMatchesAny(glob, path, m.excludeGlobs) && there(below[i]))
    {
      assert Under(below[i], path);
      ClearThroughEntry(m, glob, below[i], directory, n.name);
    }
    if KeepDuringWalk(c, m, glob, path, true) {
      WhereSame(below, here, there);
    } else {
      forall i | 0 <= i < |below| ensures !here(below[i]) {
        assert Under(below[i], path);
        if IsInScope(c, m, glob, below[i]) {
          DirectoriesAboveAreKept(c, m, glob, below[i], |path|);
        }
      }
      WhereNone(below, here);
    }
  }

  lemma FileFiles(c: Config, m: Matchers, glob: Glob, directory: string, name: string)
    requires name != "" && '/' !in name
    ensures var path := Join(directory, name);
      Where(if KeepDuringWalk(c, m, glob, path, false) then [path] else [], InScope(c, m, glob))
      == Where([path], InScopeAndClear(c, m, glob, ChildStart(directory)))
  {
    ClearAtFile(m, glob, directory, name);
    assert [Join(directory, name)][1..] == [];
  }

  lemma {:induction false} WalkIsExact(c: Config, m: Matchers, glob: Glob, directory: string, children: seq<Node>)
    requires MatchersFor(c, m) && AllWellNamed(children)
    ensures Where(Walk(c, m, glob, directory, children), InScope(c, m, glob))
         == Where(AllFiles(directory, children), InScopeAndClear(c, m, glob, ChildStart(directory)))
    decreases children
  {
    if children != [] {
      var n := children[0];
      var path := Join(directory, n.name);
      WalkIsExact(c, m, glob, directory, children[1..]);
      if n.DirNode? {
        WalkIsExact(c, m, glob, path, n.children);
        DirectoryFiles(c, m, glob, directory, n);
      } else {
        FileFiles(c, m, glob, directory, n.name);
      }
      var kept := if !KeepDuringWalk(c, m, glob, path, n.DirNode?) then []
                  else if n.FileNode? then [path]
                  else Walk(c, m, glob, path, n.children);
      var all := if n.FileNode? then [path] else AllFiles(path, n.children);
      WhereConcat(kept, Walk(c, m, glob, directory, children[1..]), InScope(c, m, glob));
      WhereConcat(all, AllFiles(directory, children[1..]), InScopeAndClear(c, m, glob, ChildStart(directory)));
    }
  }

  /**
   The pruned walk followed by the scope check finds, in order, exactly the files in scope
   that have no glob-excluded directory above them.
   */
  lemma PrunedWalkFinds(c: Config, m: Matchers, glob: Glob, tree: seq<Node>)
    requires MatchersFor(c, m) && AllWellNamed(tree)
    ensures Where(Walk(c, m, glob, "", tree), InScope(c, m, glob))
         == Where(AllFiles("", tree), InScopeAndClear(c, m, glob, 0))
  {
    WalkIsExact(c, m, glob, "", tree);
  }

  /** Without exclude globs pruning loses nothing: the walk finds what an unpruned one would. */
  lemma PruningLosesNothing(c: Config, m: Matchers, glob: Glob, tree: seq<Node>)
    requires MatchersFor(c, m) && AllWellNamed(tree) && Globs(c.excludes) == []
    ensures Where(Walk(c, m, glob, "", tree), InScope(c, m, glob)) == Where(AllFiles("", tree), InScope(c, m, glob))
  {
    PrunedWalkFinds(c, m, glob, tree);
    WhereSame(AllFiles("", tree), InScope(c, m, glob), InScopeAndClear(c, m, glob, 0));
  }

  lemma {:induction false} OneSegment(name: string)
    requires '/' !in name
    ensures Segments(name) == [name]
  {
    if name != "" {
      OneSegment(name[1..]);
      assert name == [name[0]] + name[1..];
    }
  }

  function OneCharacter(): Glob { (path: string, entry: string) => |path| == 1 }

  lemma SampleSegments()
    ensures Segments(AsciiLower("a/x.c")) == ["a", "x.c"] && AsciiLower("a/x.c") == "a/x.c"
  {
    SegmentsSplit("a/x.c", 1);
    OneSegment("a");
    OneSegment("x.c");
    assert "a/x.c"[..1] == "a" && "a/x.c"[2..] == "x.c";
    assert AsciiLower("a/x.c") == "a/x.c";
  }

  lemma SampleExtension(m: Matchers)
    requires m.extensions == (set e | e in ["c"] :: "." + AsciiLower(e))
    ensures HasSourceExtension(m, "a/x.c")
  {
    SampleSegments();
    assert LastDot("x.c") == 1 && "x.c"[1..] == ".c";
    assert "c" in ["c"] && "." + AsciiLower("c") == ".c";
  }

  lemma SampleWalk(c: Config, m: Matchers)
    requires m.excludeGlobs == ["?"]
    ensures Walk(c, m, OneCharacter(), "", [DirNode("a", [FileNode("x.c")])]) == []
  {
    var glob := OneCharacter();
    assert glob("a", m.excludeGlobs[0]);
    assert !KeepDuringWalk(c, m, glob, "a", true);
    assert [DirNode("a", [FileNode("x.c")])][1..] == [];
  }

  /**
   An exclude glob may cost files: `?` excludes the directory `a` but not the file
   `a/x.c`, which is in scope and is not found.
   */
  lemma ExcludeGlobsMayCostFiles(c: Config, m: Matchers)
    requires c == Config([], ["?"], [], ["c"]) && MatchersFor(c, m)
    ensures IsInScope(c, m, OneCharacter(), "a/x.c")
    ensures Walk(c, m, OneCharacter(), "", [DirNode("a", [FileNode("x.c")])]) == []
  {
    assert c.excludes[1..] == [] && m.excludeGlobs == ["?"] && m.excludeLower == [];
    SampleSegments();
    SampleExtension(m);
    SampleWalk(c, m);
  }
}
