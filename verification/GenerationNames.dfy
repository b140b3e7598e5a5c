/**
 The names in a workspace's index directory (pathing.rs): generations, their SQLite
 sidecars, staging files and the active manifest. Names are single path components.
 */
module GenerationNames {
  import opened Basics

  const MANIFEST := "active-index"
  const LEGACY := "index.sqlite"
  const U64_MAX: nat := 0xFFFF_FFFF_FFFF_FFFF

  function StripSuffix(s: string, suffix: string): (r: string)
    requires EndsWith(s, suffix)
    ensures s == r + suffix
  {
    s[..|s| - |suffix|]
  }

  /** The database a file belongs to: its own name, without a sidecar suffix. */
  function BaseName(name: string): string {
    if EndsWith(name, "-wal") then StripSuffix(name, "-wal")
    else if EndsWith(name, "-shm") then StripSuffix(name, "-shm")
    else if EndsWith(name, "-journal") then StripSuffix(name, "-journal")
    else name
  }

  // ---------------------------------------------------------------- generation numbers

  predicate IsDigit(c: char) { '0' <= c <= '9' }

  /** The value of a string of decimal digits. */
  function Value(s: string): nat
    requires forall i :: 0 <= i < |s| ==> IsDigit(s[i])
  {
    if s == "" then 0 else assert IsDigit(s[|s| - 1]); Value(s[..|s| - 1]) * 10 + (s[|s| - 1] as int - '0' as int)
  }

  /** `parse::<u64>().is_ok()`: an optional plus sign, then digits, within 64 bits. */
  predicate ParsesAsU64(s: string) {
    var digits := if s != "" && s[0] == '+' then s[1..] else s;
    digits != "" && (forall i :: 0 <= i < |digits| ==> IsDigit(digits[i])) && Value(digits) <= U64_MAX
  }

  function Decimal(n: nat): (s: string)
    ensures s != "" && forall i :: 0 <= i < |s| ==> IsDigit(s[i])
    ensures Value(s) == n
  {
    var last := [('0' as int + n % 10) as char];
    if n < 10 then
      assert Value(last[..0]) == 0;
      last
    else
      var rest := Decimal(n / 10);
      assert (rest + last)[..|rest + last| - 1] == rest;
      rest + last
  }

  /** The part before the first '-', as `split('-').next()` gives it. */
  function UpToDash(s: string): (r: string)
    ensures '-' !in r && |r| <= |s| && s[..|r|] == r && (|r| < |s| ==> s[|r|] == '-')
  {
    if s == "" || s[0] == '-' then "" else [s[0]] + UpToDash(s[1..])
  }

  /** The two affixes cannot overlap, so the slice between them is always in bounds. */
  function Between(name: string): (r: string)
    requires StartsWith(name, "index-g") && EndsWith(name, ".sqlite")
    ensures name == "index-g" + r + ".sqlite"
  {
    AffixesDoNotOverlap(name);
    name[7..|name| - 7]
  }

  lemma AffixesDoNotOverlap(name: string)
    requires StartsWith(name, "index-g") && EndsWith(name, ".sqlite")
    ensures |name| >= 14
  {
    StartChars(name, "index-g");
    EndChars(name, ".sqlite");
    assert name[|name| - 7] == '.';
    assert forall i :: 0 <= i < 7 ==> name[i] != '.';
  }

  predicate IsGenerationDatabaseName(name: string) {
    StartsWith(name, "index-g") && EndsWith(name, ".sqlite") && ParsesAsU64(UpToDash(Between(name)))
  }

  // ---------------------------------------------------------------- names made by a publication

  /** `file_stem`: everything before the last dot, unless that is the first character. */
  function FileStem(name: string): string {
    var dot := LastDot(name);
    if dot <= 0 then name else name[..dot]
  }

  function Token(staging: string): Option<string> {
    var stem := FileStem(staging);
    if StartsWith(stem, "index-build-") then Some(stem[12..]) else None
  }

  function FinalName(generation: nat, token: string): string {
    "index-g" + (Decimal(generation) + "-" + token) + ".sqlite"
  }

  function TmpName(token: string): string { "active-index-" + token + ".tmp" }

  predicate IsStagingName(name: string) {
    StartsWith(name, "index-build-") || (StartsWith(name, "active-index-") && EndsWith(name, ".tmp"))
  }

  /** What the manifest may name: a file of this directory that looks like a generation. */
  predicate IsIndexName(name: string) {
    '/' !in name && StartsWith(name, "index-g") && EndsWith(name, ".sqlite")
  }

  /** White space as `str::trim` sees it. */
  predicate IsSpace(c: char) {
    var n := c as int;
    9 <= n <= 13 || n == 32 || n == 0x85 || n == 0xA0 || n == 0x1680 || 0x2000 <= n <= 0x200A
    || n == 0x2028 || n == 0x2029 || n == 0x202F || n == 0x205F || n == 0x3000
  }

  function TrimStart(s: string): string {
    if s != "" && IsSpace(s[0]) then TrimStart(s[1..]) else s
  }

  function TrimEnd(s: string): string {
    if s != "" && IsSpace(s[|s| - 1]) then TrimEnd(s[..|s| - 1]) else s
  }

  function Trim(s: string): string { TrimEnd(TrimStart(s)) }

  lemma ManifestEntryReadsBack(name: string)
    requires IsIndexName(name)
    ensures Trim(name + "\n") == name
  {
    StartChars(name, "index-g");
    EndChars(name, ".sqlite");
    var text := name + "\n";
    assert text[0] == 'i' && !IsSpace('i');
    assert TrimStart(text) == text;
    assert text[..|text| - 1] == name && name[|name| - 1] == 'e';
    assert TrimEnd(name) == name;
  }

  lemma {:induction false} UpToDashOf(head: string, rest: string)
    requires '-' !in head
    ensures UpToDash(head + "-" + rest) == head
  {
    var s := head + "-" + rest;
    if head == "" {
      assert s[0] == '-';
    } else {
      assert s[0] == head[0] && s[1..] == head[1..] + "-" + rest;
      UpToDashOf(head[1..], rest);
    }
  }

  /**
   Every name a publication chooses is recognised as a generation by cleanup and by
   the lease check, and accepted as a manifest entry.
   */
  lemma FinalNameIsRecognised(generation: nat, token: string)
    requires generation <= U64_MAX
    ensures IsGenerationDatabaseName(FinalName(generation, token))
    ensures '/' !in token ==> IsIndexName(FinalName(generation, token))
  {
    var name := FinalName(generation, token);
    var number := Decimal(generation);
    assert name[..7] == "index-g" && name[|name| - 7..] == ".sqlite";
    assert Between(name) == number + "-" + token;
    UpToDashOf(number, token);
    assert forall i :: 0 <= i < |number| ==> IsDigit(number[i]);
  }

  /** Generation and token can be read back from the name: another pair is another file. */
  lemma FinalNameIsInjective(g: nat, t: string, h: nat, u: string)
    requires FinalName(g, t) == FinalName(h, u)
    ensures g == h && t == u
  {
    var a, b := Decimal(g) + "-" + t, Decimal(h) + "-" + u;
    var name := FinalName(g, t);
    assert name[7..|name| - 7] == a && name[7..|name| - 7] == b;
    UpToDashOf(Decimal(g), t);
    UpToDashOf(Decimal(h), u);
    assert a[|Decimal(g)| + 1..] == t && b[|Decimal(h)| + 1..] == u;
  }

  /** Recognised are the numbered names and no others: what follows the number begins with a dash. */
  lemma GenerationNameIff(name: string)
    ensures IsGenerationDatabaseName(name) <==> exists sign, number, rest :: NumberedBy(name, sign, number, rest)
  {
    if IsGenerationDatabaseName(name) {
      var sign, number, rest := NumberOf(name);
    }
    if sign, number, rest :| NumberedBy(name, sign, number, rest) {
      NumberedIsGeneration(name, sign, number, rest);
    }
  }

  lemma ParsedDigits(s: string)
    requires ParsesAsU64(s)
    ensures var digits := if s != "" && s[0] == '+' then s[1..] else s;
      digits != "" && (forall i :: 0 <= i < |digits| ==> IsDigit(digits[i])) && Value(digits) <= U64_MAX
  {
  }

  lemma NumberOf(name: string) returns (sign: string, number: string, rest: string)
    requires IsGenerationDatabaseName(name)
    ensures NumberedBy(name, sign, number, rest)
  {
    var between := Between(name);
    var head := UpToDash(between);
    rest := between[|head|..];
    assert head + rest == between;
    sign := if head != "" && head[0] == '+' then "+" else "";
    number := if head != "" && head[0] == '+' then head[1..] else head;
    assert sign + number == head;
    ParsedDigits(head);
  }

  /** An optional plus sign, a decimal number of 64 bits, and nothing more or a dash and anything. */
  predicate NumberedBy(name: string, sign: string, number: string, rest: string) {
    name == "index-g" + (sign + number + rest) + ".sqlite"
    && (sign == "" || sign == "+") && number != "" && (forall i :: 0 <= i < |number| ==> IsDigit(number[i]))
    && Value(number) <= U64_MAX && (rest == "" || rest[0] == '-')
  }

  lemma NumberedIsGeneration(name: string, sign: string, number: string, rest: string)
    requires NumberedBy(name, sign, number, rest)
    ensures IsGenerationDatabaseName(name)
  {
    var head := sign + number;
    assert name[..7] == "index-g" && name[|name| - 7..] == ".sqlite";
    assert Between(name) == head + rest;
    UpToDashEnds(head, rest);
    assert sign == "" ==> head == number;
    assert sign == "+" ==> head[0] == '+' && head[1..] == number;
    assert sign == "" ==> IsDigit(head[0]);
  }

  lemma {:induction false} UpToDashEnds(head: string, rest: string)
    requires forall i :: 0 <= i < |head| ==> head[i] != '-'
    requires rest == "" || rest[0] == '-'
    ensures UpToDash(head + rest) == head
  {
    if head == "" {
      assert head + rest == rest;
    } else {
      assert (head + rest)[1..] == head[1..] + rest;
      UpToDashEnds(head[1..], rest);
    }
  }

  /** A staging database has a token exactly when its name starts right; the token ends before the last dot. */
  lemma TokenIff(staging: string)
    ensures Token(staging).Some? <==> StartsWith(staging, "index-build-")
    ensures forall t, extension :: staging == "index-build-" + t + "." + extension && '.' !in extension ==>
              Token(staging) == Some(t)
    ensures forall t :: staging == "index-build-" + t && '.' !in t ==> Token(staging) == Some(t)
  {
    var dot, stem := LastDot(staging), FileStem(staging);
    assert stem == staging[..|stem|];
    if StartsWith(stem, "index-build-") {
      assert staging[..12] == stem[..12];
    }
    if StartsWith(staging, "index-build-") {
      StartChars(staging, "index-build-");
      assert dot > 0 ==> dot >= 12;
      assert stem[..12] == staging[..12];
    }
    forall t, extension | staging == "index-build-" + t + "." + extension && '.' !in extension
      ensures Token(staging) == Some(t)
    {
      var at := 12 + |t|;
      assert staging[at] == '.' && staging[at + 1..] == extension;
      forall j | at < j < |staging| ensures staging[j] != '.' {
        assert staging[j] == extension[j - at - 1];
      }
      assert stem == "index-build-" + t;
    }
    forall t | staging == "index-build-" + t && '.' !in t ensures Token(staging) == Some(t) {
      forall j | 0 <= j < |staging| ensures staging[j] != '.' {
        assert staging[j] == if j < 12 then "index-build-"[j] else t[j - 12];
      }
      assert staging[12..] == t;
    }
  }

  /** A sidecar belongs to its database, and a database to itself. */
  lemma BaseOfFamily(name: string)
    requires EndsWith(name, ".sqlite")
    ensures BaseName(name) == name
    ensures BaseName(name + "-wal") == name && BaseName(name + "-shm") == name && BaseName(name + "-journal") == name
  {
    EndChars(name, ".sqlite");
    assert name[|name| - 1] == 'e';
    assert (name + "-wal")[|name|..] == "-wal" && (name + "-shm")[|name|..] == "-shm";
    assert (name + "-journal")[|name|..] == "-journal";
    assert name[|name| - 1..] == "e";
    forall suffix | suffix in ["-wal", "-shm", "-journal"] ensures !EndsWith(name, suffix) {
      if EndsWith(name, suffix) {
        EndChars(name, suffix);
      }
    }
    assert !EndsWith(name + "-shm", "-wal") by {
      assert (name + "-shm")[|name| + 3] == 'm';
      if EndsWith(name + "-shm", "-wal") { EndChars(name + "-shm", "-wal"); }
    }
    assert !EndsWith(name + "-journal", "-wal") && !EndsWith(name + "-journal", "-shm") by {
      assert (name + "-journal")[|name| + 7] == 'l';
      assert (name + "-journal")[|name| + 6] == 'a' && (name + "-journal")[|name| + 5] == 'n';
      if EndsWith(name + "-journal", "-wal") { EndChars(name + "-journal", "-wal"); }
      if EndsWith(name + "-journal", "-shm") { EndChars(name + "-journal", "-shm"); }
    }
  }

  lemma BaseIsPrefix(name: string)
    ensures |BaseName(name)| <= |name| && name[..|BaseName(name)|] == BaseName(name)
  {
  }

  lemma LegacyIsNoGeneration()
    ensures !StartsWith(LEGACY, "index-g")
  {
    assert LEGACY[..7][5] == '.' && "index-g"[5] == '-';
  }

  lemma SixthOfDatabase(database: string)
    requires IsIndexName(database) || database == LEGACY
    ensures |database| > 6 && database[6] in {'g', 's'}
  {
    if IsIndexName(database) {
      StartChars(database, "index-g");
      AffixesDoNotOverlap(database);
    }
  }

  lemma SixthOfStaging(name: string)
    requires IsStagingName(name) || name == MANIFEST
    ensures |name| > 6 && name[6] in {'b', '-'}
  {
    if StartsWith(name, "index-build-") {
      StartChars(name, "index-build-");
    } else if name != MANIFEST {
      StartChars(name, "active-index-");
    }
  }

  /** Staging files and the manifest belong to no generation and not to the legacy index. */
  lemma StagingIsApart(name: string, database: string)
    requires IsStagingName(name) || name == MANIFEST
    requires IsIndexName(database) || database == LEGACY
    ensures BaseName(name) != database
  {
    BaseIsPrefix(name);
    SixthOfDatabase(database);
    SixthOfStaging(name);
    assert |BaseName(name)| > 6 ==> BaseName(name)[6] == name[6];
  }

  lemma StagingIsNoGeneration(name: string)
    requires IsStagingName(name)
    ensures !IsGenerationDatabaseName(BaseName(name))
  {
    BaseIsPrefix(name);
    SixthOfStaging(name);
    var base := BaseName(name);
    if StartsWith(base, "index-g") {
      StartChars(base, "index-g");
      assert base[6] == name[6];
    }
  }

  lemma ManifestIsApart(name: string)
    requires IsStagingName(name) || IsIndexName(BaseName(name)) || BaseName(name) == LEGACY
    ensures name != MANIFEST
  {
    if IsStagingName(name) {
      assert !StartsWith(MANIFEST, "index-build-") by {
        assert MANIFEST[..12][0] == 'a' && "index-build-"[0] == 'i';
      }
    } else {
      StagingIsApart(MANIFEST, BaseName(name));
    }
  }
}
